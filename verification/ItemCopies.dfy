/** cJSON_Duplicate: a deep copy whose lists are well kept, from a tree that is walked through child and next alone. */
module ItemCopies {
  import opened Items
  import opened ItemLists

  /** A tree of items as a walk sees it. */
  datatype Shape = Shape(item: Item, kids: seq<Shape>)

  /** What stands in a tree. */
  datatype Contents = Contents(key: string, content: Content, kids: seq<Contents>)

  function Roots(kids: seq<Shape>): (r: seq<Item>)
    ensures |r| == |kids| && forall i :: 0 <= i < |r| ==> r[i] == kids[i].item
  {
    seq(|kids|, i requires 0 <= i < |kids| => kids[i].item)
  }

  /** The items below the root. */
  ghost function Below(s: Shape): set<Item>
    decreases s, 0
  {
    set k, x | k in s.kids && x in Footprint(k) :: x
  }

  ghost function Footprint(s: Shape): set<Item>
    decreases s, 1
  {
    {s.item} + Below(s)
  }

  lemma KidIsBelow(s: Shape, i: nat)
    requires i < |s.kids|
    ensures Footprint(s.kids[i]) <= Below(s)
  {
    assert s.kids[i] in s.kids;
  }

  function ContentsOf(s: Shape): Contents
    decreases s
  {
    Contents(s.item.key, s.item.content, seq(|s.kids|, i requires 0 <= i < |s.kids| => ContentsOf(s.kids[i])))
  }

  /** The same, where no item is a reference to another one's value. */
  function Owned(c: Contents): Contents
    decreases c
  {
    Contents(c.key, c.content.(isReference := false), seq(|c.kids|, i requires 0 <= i < |c.kids| => Owned(c.kids[i])))
  }

  /** Every list can be walked through next and ends; prev may hold anything. */
  ghost predicate Walks(s: Shape)
    reads Footprint(s)`child, Below(s)`next
    decreases s
  {
    RootsAreBelow(s);
    assert forall k | k in s.kids :: Footprint(k) <= Below(s);
    && s.item.child == Head(Roots(s.kids))
    && (forall i: nat :: i < |s.kids| ==> Roots(s.kids)[i].next == Nth(s, i + 1))
    && forall k | k in s.kids :: Walks(k)
  }

  ghost function Nth(s: Shape, i: nat): Item? {
    if i < |s.kids| then s.kids[i].item else null
  }

  lemma WalksOn(s: Shape, i: nat)
    requires Walks(s) && i < |s.kids|
    ensures Walks(s.kids[i]) && s.kids[i].item.next == Nth(s, i + 1)
  {
    assert s.kids[i] in s.kids;
    assert Roots(s.kids)[i] == s.kids[i].item;
  }

  lemma RootsAreBelow(s: Shape)
    ensures forall x :: x in Roots(s.kids) ==> x in Below(s)
  {
    forall x | x in Roots(s.kids) ensures x in Below(s) {
      var i :| 0 <= i < |s.kids| && Roots(s.kids)[i] == x;
      KidIsBelow(s, i);
    }
  }

  /** Below `s`, whose first child is `first`, every list is well kept, the prev of its head included. */
  ghost predicate WellKept(s: Shape, first: Item?)
    reads Below(s)
    decreases s
  {
    RootsAreBelow(s);
    && s.item !in Below(s)
    && first == Head(Roots(s.kids))
    && Chain(Roots(s.kids))
    && (s.kids != [] ==> Roots(s.kids)[0].prev == Roots(s.kids)[|s.kids| - 1])
    && forall i: nat :: i < |s.kids| ==> (KidIsBelow(s, i); WellKept(s.kids[i], s.kids[i].item.child))
  }

  /** Hang one more item behind the last one. */
  method LinkBehind(newitem: Item, next: Item?, item: Item, ghost roots: seq<Item>)
    requires newitem.child == Head(roots) && Chain(roots) && newitem !in roots && newitem != item
    requires next == if roots == [] then null else roots[|roots| - 1]
    requires item !in roots && item.next == null
    modifies newitem`child, AsSet(roots)`next, item`prev
    ensures newitem.child == Head(roots + [item]) && Chain(roots + [item])
  {
    if next != null {
      next.next := item;
      item.prev := next;
      LinkedJoin(roots, [item]);
    } else {
      newitem.child := item;
    }
  }

  /** Such a tree can be edited like any list that cJSON keeps, at every level. */
  lemma WellKeptIsKept(s: Shape)
    requires WellKept(s, s.item.child)
    ensures Kept(s.item, Roots(s.kids))
    ensures forall i: nat :: i < |s.kids| ==> WellKept(s.kids[i], s.kids[i].item.child)
  {
    RootsAreBelow(s);
  }

  /** The trees stand inside `inner` but for their roots, and are well kept. */
  ghost predicate AllKept(kids: seq<Shape>, inner: set<Item>)
    reads Roots(kids)`child, inner
  {
    forall i: nat :: i < |kids| ==> Below(kids[i]) <= inner && WellKept(kids[i], kids[i].item.child)
  }

  /** No root, and not their parent, stands inside. */
  ghost predicate Outside(parent: Item, roots: seq<Item>, inner: set<Item>) {
    parent !in roots && parent !in inner && forall i :: 0 <= i < |roots| ==> roots[i] !in inner
  }

  /** Linking the copies on top leaves what is below them alone. */
  method LinkCopy(newitem: Item, next: Item?, copy: Item, ghost roots: seq<Item>, ghost more: seq<Shape>, ghost inner: set<Item>)
    requires Roots(more) == roots + [copy] && AllKept(more, inner) && Outside(newitem, roots + [copy], inner)
    requires newitem.child == Head(roots) && Chain(roots) && copy !in roots && copy.next == null
    requires next == if roots == [] then null else roots[|roots| - 1]
    modifies newitem`child, AsSet(roots)`next, copy`prev
    ensures newitem.child == Head(roots + [copy]) && Chain(roots + [copy]) && AllKept(more, inner)
  {
    OutsideMeans(newitem, roots, copy, inner);
    LinkBehind(newitem, next, copy, roots);
  }

  lemma OutsideMeans(parent: Item, roots: seq<Item>, copy: Item, inner: set<Item>)
    requires Outside(parent, roots + [copy], inner)
    ensures parent !in inner && parent !in roots && parent != copy && copy !in inner
    ensures forall x :: x in inner ==> x !in roots
  {
    var more := roots + [copy];
    assert more[|roots|] == copy;
    forall x | x in roots ensures x !in inner && x != parent {
      var i :| 0 <= i < |roots| && roots[i] == x;
      assert more[i] == x;
    }
  }

  /** The state of the copying loop. */
  ghost predicate Copying(newitem: Item, next: Item?, kids: seq<Shape>, inner: set<Item>)
    reads newitem`child, Roots(kids), inner
  {
    && newitem.child == Head(Roots(kids)) && Chain(Roots(kids))
    && AllKept(kids, inner) && Outside(newitem, Roots(kids), inner)
    && next == if kids == [] then null else kids[|kids| - 1].item
  }

  /** A copy that came from nowhere else. */
  ghost predicate Lone(d: Shape)
    reads d.item, Below(d)
  {
    d.item.next == null && WellKept(d, d.item.child)
  }

  /** What the loop does with one finished copy. */
  method TakeIn(newitem: Item, next: Item?, ghost dc: Shape, copy: Item, ghost kids: seq<Shape>, ghost inner: set<Item>)
    requires Copying(newitem, next, kids, inner) && Lone(dc) && dc.item == copy
    requires Footprint(dc) !! inner + AsSet(Roots(kids)) + {newitem}
    modifies newitem`child, AsSet(Roots(kids))`next, copy`prev
    ensures Copying(newitem, copy, kids + [dc], inner + Below(dc))
  {
    ghost var roots, more, inner' := Roots(kids), kids + [dc], inner + Below(dc);
    assert Roots(more) == roots + [copy];
    assert AllKept(more, inner');
    forall i | 0 <= i < |roots + [copy]| ensures (roots + [copy])[i] !in inner' {
      if i < |roots| {
        assert roots[i] in AsSet(roots);
      }
    }
    LinkCopy(newitem, next, copy, roots, more, inner');
  }

  /** The copies hold what the first trees below `s` do. */
  ghost predicate SameContents(s: Shape, kids: seq<Shape>)
    requires |kids| <= |s.kids|
  {
    forall k: nat :: k < |kids| ==> ContentsOf(kids[k]) == Owned(ContentsOf(s.kids[k]))
  }

  /** The loop between two copies. Everything made for the copy so far is in `made`, all of the original in `all`. */
  ghost predicate Busy(s: Shape, all: set<Item>, newitem: Item, next: Item?, kids: seq<Shape>, inner: set<Item>, made: set<Item>)
    reads Footprint(s), newitem, Roots(kids), inner
  {
    && |kids| <= |s.kids| && Walks(s) && Copying(newitem, next, kids, inner) && SameContents(s, kids)
    && Footprint(s) <= all && all !! made && newitem in made && inner <= made && AsSet(Roots(kids)) <= made
  }

  lemma BelowCopies(d: Shape, inner: set<Item>)
    requires forall i: nat :: i < |d.kids| ==> Below(d.kids[i]) <= inner
    ensures Below(d) <= inner + AsSet(Roots(d.kids))
  {
    forall x | x in Below(d) ensures x in inner + AsSet(Roots(d.kids)) {
      var k :| k in d.kids && x in Footprint(k);
      var i :| 0 <= i < |d.kids| && d.kids[i] == k;
      assert Roots(d.kids)[i] == k.item;
    }
  }

  /** cJSON_Duplicate. */
  method Duplicate(item: Item, recurse: bool, ghost s: Shape, ghost all: set<Item>)
    returns (newitem: Item, ghost d: Shape, ghost made: set<Item>)
    requires s.item == item && Footprint(s) <= all && (recurse ==> Walks(s))
    ensures d.item == newitem && fresh(made) && Footprint(d) <= made && Lone(d) && newitem.prev == null
    ensures newitem.key == item.key && newitem.content == item.content.(isReference := false)
    ensures if recurse then ContentsOf(d) == Owned(ContentsOf(s)) else d.kids == []
    decreases s, 2
  {
    newitem := new Item(item.key, item.content.(isReference := false));
    d, made := Shape(newitem, []), {newitem};
    if !recurse {
      return;
    }
    ghost var kids, inner;
    var next;
    next, made, kids, inner := CopyKids(newitem, item.child, s, all);
    d := Shape(newitem, kids);
    BelowCopies(d, inner);
    WholeContents(s, d);
  }

  lemma WholeContents(s: Shape, d: Shape)
    requires |d.kids| == |s.kids| && SameContents(s, d.kids)
    requires d.item.key == s.item.key && d.item.content == s.item.content.(isReference := false)
    ensures ContentsOf(d) == Owned(ContentsOf(s))
  {
    assert ContentsOf(d).kids == Owned(ContentsOf(s)).kids;
  }

  /** The loop over the children, through next, and the head's prev at the end. */
  method CopyKids(newitem: Item, first: Item?, ghost s: Shape, ghost all: set<Item>)
    returns (next: Item?, ghost made: set<Item>, ghost kids: seq<Shape>, ghost inner: set<Item>)
    requires Walks(s) && first == s.item.child && Footprint(s) <= all && newitem !in all && newitem.child == null && newitem.next == null
    modifies newitem`child
    ensures fresh(made - {newitem}) && newitem in made && inner <= made && AsSet(Roots(kids)) <= made
    ensures |kids| == |s.kids| && SameContents(s, kids) && Lone(Shape(newitem, kids))
    ensures forall i: nat :: i < |kids| ==> Below(kids[i]) <= inner
    decreases s, 1
  {
    kids, inner, made := [], {}, {newitem};
    var child := first;
    next := null;
    StartsCopying(newitem, kids, inner);
    while child != null
      invariant Busy(s, all, newitem, next, kids, inner, made) && child == Nth(s, |kids|)
      invariant fresh(made - {newitem}) && newitem.next == null
      decreases |s.kids| - |kids|
    {
      ghost var own;
      next, kids, inner, own := CopyNext(newitem, next, child, s, all, kids, inner, made);
      made := made + own;
      child := child.next;
    }
    CloseRing(newitem, next, kids, inner);
  }

  lemma StartsCopying(newitem: Item, kids: seq<Shape>, inner: set<Item>)
    requires kids == [] && inner == {} && newitem.child == null
    ensures Copying(newitem, null, kids, inner)
  {
  }

  /** The head's prev is the last copy, at the end and not before. */
  method CloseRing(newitem: Item, next: Item?, ghost kids: seq<Shape>, ghost inner: set<Item>)
    requires Copying(newitem, next, kids, inner) && newitem.next == null
    modifies AsSet(Roots(kids))`prev
    ensures Lone(Shape(newitem, kids))
    ensures forall i: nat :: i < |kids| ==> Below(kids[i]) <= inner
  {
    ghost var roots := Roots(kids);
    BelowCopies(Shape(newitem, kids), inner);
    assert forall i :: 0 <= i < |roots| ==> roots[i] !in inner;
    if newitem.child != null {
      newitem.child.prev := next;
    }
    ghost var kept := AllKept(kids, inner);
    assert kept;
  }

  method CopyNext(newitem: Item, next: Item?, child: Item, ghost s: Shape, ghost all: set<Item>,
                  ghost kids: seq<Shape>, ghost inner: set<Item>, ghost made: set<Item>)
    returns (newchild: Item, ghost kids': seq<Shape>, ghost inner': set<Item>, ghost own: set<Item>)
    requires Busy(s, all, newitem, next, kids, inner, made) && child == Nth(s, |kids|)
    modifies newitem`child, AsSet(Roots(kids))`next
    ensures Busy(s, all, newitem, newchild, kids', inner', made + own)
    ensures |kids'| == |kids| + 1 && child.next == Nth(s, |kids'|) && fresh(own)
    decreases s, 0
  {
    KidIsBelow(s, |kids|);
    WalksOn(s, |kids|);
    ghost var dc;
    newchild, dc, own := Duplicate(child, true, s.kids[|kids|], all);
    ghost var busy := Busy(s, all, newitem, next, kids, inner, made);
    assert busy;
    TakeBusy(newitem, next, newchild, dc, s, all, kids, inner, made, own);
    kids', inner' := kids + [dc], inner + Below(dc);
  }

  method TakeBusy(newitem: Item, next: Item?, newchild: Item, ghost dc: Shape, ghost s: Shape, ghost all: set<Item>,
                  ghost kids: seq<Shape>, ghost inner: set<Item>, ghost made: set<Item>, ghost own: set<Item>)
    requires Busy(s, all, newitem, next, kids, inner, made) && |kids| < |s.kids|
    requires Lone(dc) && dc.item == newchild && Footprint(dc) <= own && own !! made + all
    requires ContentsOf(dc) == Owned(ContentsOf(s.kids[|kids|]))
    modifies newitem`child, AsSet(Roots(kids))`next, newchild`prev
    ensures Busy(s, all, newitem, newchild, kids + [dc], inner + Below(dc), made + own)
  {
    TakeIn(newitem, next, dc, newchild, kids, inner);
    ghost var walks := Walks(s);
    assert walks;
    BusyAgain(s, all, newitem, newchild, dc, kids, inner, made, own);
  }

  lemma BusyAgain(s: Shape, all: set<Item>, newitem: Item, newchild: Item, dc: Shape, kids: seq<Shape>, inner: set<Item>,
                  made: set<Item>, own: set<Item>)
    requires |kids| < |s.kids| && Walks(s) && Copying(newitem, newchild, kids + [dc], inner + Below(dc))
    requires SameContents(s, kids) && ContentsOf(dc) == Owned(ContentsOf(s.kids[|kids|]))
    requires Footprint(s) <= all && newitem in made && inner <= made && AsSet(Roots(kids)) <= made
    requires all !! made && Footprint(dc) <= own && own !! made + all && dc.item == newchild
    ensures Busy(s, all, newitem, newchild, kids + [dc], inner + Below(dc), made + own)
  {
    MoreContents(s, kids, dc);
    RootsMore(kids, dc);
  }

  lemma MoreContents(s: Shape, kids: seq<Shape>, dc: Shape)
    requires |kids| < |s.kids| && SameContents(s, kids) && ContentsOf(dc) == Owned(ContentsOf(s.kids[|kids|]))
    ensures SameContents(s, kids + [dc])
  {
  }

  lemma RootsMore(kids: seq<Shape>, dc: Shape)
    ensures AsSet(Roots(kids + [dc])) == AsSet(Roots(kids)) + {dc.item}
  {
    assert Roots(kids + [dc]) == Roots(kids) + [dc.item];
  }
}
