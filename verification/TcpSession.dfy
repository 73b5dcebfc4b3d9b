/** tcp_session.c: a slab of sessions with a free list, the list of online sessions, and lazy removal. */
module TcpSession {

  const MAX_SESSION_NUM: nat := 6000
  const IP_ROOM: nat := 32

  class Session {
    var ip: string
    var port: int
    var sock: int
    var removed: int
    var shaken: int
    var next: Session?

    /** memset. */
    constructor ()
      ensures Blank()
    {
      ip, port, sock, removed, shaken, next := "", 0, 0, 0, 0, null;
    }

    predicate Blank()
      reads this
    {
      ip == "" && port == 0 && sock == 0 && removed == 0 && shaken == 0 && next == null
    }

    method Zero()
      modifies this
      ensures Blank()
    {
      ip, port, sock, removed, shaken, next := "", 0, 0, 0, 0, null;
    }
  }

  function After(nodes: seq<Session>, i: nat): Session? {
    if i + 1 < |nodes| then nodes[i + 1] else null
  }

  function First(nodes: seq<Session>): Session? {
    if nodes == [] then null else nodes[0]
  }

  /** The list that starts at `head` is exactly `nodes`, so it ends. */
  predicate Linked(head: Session?, nodes: seq<Session>)
    reads nodes
  {
    head == First(nodes) && forall i: nat :: i < |nodes| ==> nodes[i].next == After(nodes, i)
  }

  predicate Distinct(nodes: seq<Session>) {
    forall i, j :: 0 <= i < j < |nodes| ==> nodes[i] != nodes[j]
  }

  predicate Apart(a: seq<Session>, b: seq<Session>) {
    forall i, j :: 0 <= i < |a| && 0 <= j < |b| ==> a[i] != b[j]
  }

  /** Who holds which session: every session of the slab is online, free, or the one in hand; the free list has
      only sessions of the slab; what went back to the system is nowhere. */
  ghost predicate Ledger(slab: seq<Session>, online: seq<Session>, free: seq<Session>, hand: Session?, gone: set<Session>) {
    && Distinct(slab) && Distinct(online) && Distinct(free) && Apart(online, free)
    && (forall s :: s in slab ==> s in online || s in free || s == hand)
    && (forall s :: s in free ==> s in slab)
    && (hand != null ==> hand !in online && hand !in free && hand !in gone)
    && (forall s :: s in gone ==> s !in slab && s !in online)
  }

  /** The sessions that are not marked, in order. */
  function Live(nodes: seq<Session>, marked: set<Session>): seq<Session> {
    if nodes == [] then [] else
      var init, last := Live(nodes[..|nodes| - 1], marked), nodes[|nodes| - 1];
      if last in marked then init else init + [last]
  }

  /** The marked sessions of the slab, the last one first. */
  ghost function Recycled(nodes: seq<Session>, marked: set<Session>, slab: seq<Session>): seq<Session> {
    if nodes == [] then [] else
      var init, last := Recycled(nodes[..|nodes| - 1], marked, slab), nodes[|nodes| - 1];
      if last in marked && last in slab then [last] + init else init
  }

  /** The sockets of the marked sessions in order. */
  ghost function Sockets(nodes: seq<Session>, marked: set<Session>): seq<int>
    reads nodes
  {
    if nodes == [] then [] else
      var init, last := Sockets(nodes[..|nodes| - 1], marked), nodes[|nodes| - 1];
      if last in marked then init + [last.sock] else init
  }

  /** The same from the socket numbers as they were before any was closed. */
  ghost function Closing(all: seq<Session>, marked: set<Session>, socks: seq<int>, i: nat): seq<int>
    requires i <= |all| == |socks|
  {
    if i == 0 then [] else
      var init := Closing(all, marked, socks, i - 1);
      if all[i - 1] in marked then init + [socks[i - 1]] else init
  }

  lemma {:induction false} ClosingIsSockets(all: seq<Session>, marked: set<Session>, socks: seq<int>, i: nat)
    requires i <= |all| == |socks| && forall j :: 0 <= j < |all| ==> all[j].sock == socks[j]
    ensures Closing(all, marked, socks, i) == Sockets(all[..i], marked)
    decreases i
  {
    if i > 0 {
      ClosingIsSockets(all, marked, socks, i - 1);
      assert all[..i][..i - 1] == all[..i - 1];
    }
  }

  /** The marked sessions that go back to the system. */
  ghost function Lost(nodes: seq<Session>, marked: set<Session>, slab: seq<Session>): set<Session> {
    set s | s in nodes && s in marked && s !in slab
  }

  /** The session whose next field a pointer cell is, if it is not the head of the list. */
  function Cell(prev: Session?): set<Session> {
    if prev == null then {} else {prev}
  }

  function Without(nodes: seq<Session>, k: nat): seq<Session>
    requires k < |nodes|
  {
    nodes[..k] + nodes[k + 1..]
  }

  class Manager {
    const slab: seq<Session>
    var online: Session?
    var free: Session?
    var hasRemoved: int
    ghost var Online: seq<Session>
    ghost var Free: seq<Session>
    ghost var Gone: set<Session>

    ghost predicate Sound(hand: Session?)
      reads this, Online, Free
    {
      && Linked(online, Online) && Linked(free, Free)
      && Ledger(slab, Online, Free, hand, Gone)
    }

    ghost predicate Flags()
      reads this, Online
    {
      && (forall s :: s in Online ==> s.removed == 0 || s.removed == 1)
      && (hasRemoved == 0 ==> forall s :: s in Online ==> s.removed == 0)
    }

    ghost predicate Valid()
      reads this, Online, Free
    {
      |slab| == MAX_SESSION_NUM && Sound(null) && Flags()
    }

    ghost function Marked(): set<Session>
      reads this, Online
    {
      set s | s in Online && s.removed != 0
    }

    /** init_session_manager. */
    constructor ()
      ensures Valid() && Online == [] && |Free| == |slab| && forall i :: 0 <= i < |Free| ==> Free[i] == slab[|slab| - 1 - i]
      ensures fresh(slab)
    {
      var nodes := Block(MAX_SESSION_NUM);
      slab := nodes;
      online, free, hasRemoved := null, null, 0;
      Online, Free, Gone := [], [], {};
      new;
      var i := 0;
      while i < |slab|
        invariant i <= |slab| && Linked(free, Free) && |Free| == i && Online == [] && Gone == {} && hasRemoved == 0 && online == null
        invariant forall j :: 0 <= j < i ==> Free[j] == slab[i - 1 - j]
        invariant fresh(this) && fresh(slab)
      {
        slab[i].next := free;
        free := slab[i];
        Free := [slab[i]] + Free;
        i := i + 1;
      }
      assert forall j :: 0 <= j < i ==> slab[j] == Free[i - 1 - j];
    }

    /** cache_alloc, up to the memset. */
    method Take() returns (s: Session)
      requires Sound(null)
      modifies this
      ensures Sound(s) && Online == old(Online) && online == old(online) && Gone == old(Gone) && hasRemoved == old(hasRemoved)
      ensures old(Free) != [] ==> s == old(Free[0]) && Free == old(Free[1..])
      ensures old(Free) == [] ==> fresh(s) && Free == []
    {
      if free != null {
        s := free;
        free := s.next;
        Free := Free[1..];
        LinkedTail(s, old(Free));
        TakeFromFree(slab, Online, old(Free), Gone);
      } else {
        s := new Session();
      }
    }

    /** cache_free. The address range of the slab is membership in it. */
    method CacheFree(s: Session)
      requires Sound(s)
      modifies `free, `Free, `Gone, s`next
      ensures Sound(null)
      ensures s in slab ==> Free == [s] + old(Free) && Gone == old(Gone)
      ensures s !in slab ==> Free == old(Free) && Gone == old(Gone) + {s}
    {
      if s in slab {
        s.next := free;
        free := s;
        Free := [s] + Free;
        PutBack(slab, Online, old(Free), s, Gone);
      } else {
        Gone := Gone + {s};
      }
    }
  
    /** save_session. */
    method Save(sock: int, ip: string, port: int) returns (s: Session)
      requires Valid()
      modifies this, Free
      ensures Valid() && Online == [s] + old(Online) && Gone == old(Gone) && hasRemoved == old(hasRemoved)
      ensures s.sock == sock && s.port == port && s.removed == 0 && s.shaken == 0
      ensures s.ip == if |ip| < IP_ROOM then ip else ip[..IP_ROOM - 1]
      ensures old(Free) != [] ==> s == old(Free[0]) && Free == old(Free[1..])
      ensures old(Free) == [] ==> fresh(s) && Free == []
      ensures forall t :: t in old(Free) && t != s ==> unchanged(t)
    {
      s := Take();
      s.Zero();
      s.sock, s.port, s.removed := sock, port, 0;
      var len := |ip|;
      if len >= IP_ROOM {
        len := IP_ROOM - 1;
      }
      s.ip := ip[..len];
      s.next := online;
      online := s;
      Online := [s] + Online;
      BringOnline(slab, old(Online), Free, s, Gone);
    }

    /** get_session: the newest session with that socket that is not marked. */
    method Get(sock: int) returns (s: Session?, ghost k: nat)
      requires Valid()
      ensures k <= |Online| && s == if k < |Online| then Online[k] else null
      ensures s != null ==> s.sock == sock && s.removed == 0
      ensures forall j :: 0 <= j < k ==> Online[j].sock != sock || Online[j].removed != 0
    {
      s, k := online, 0;
      while s != null
        invariant k <= |Online| && s == if k < |Online| then Online[k] else null
        invariant forall j :: 0 <= j < k ==> Online[j].sock != sock || Online[j].removed != 0
        decreases |Online| - k
      {
        if s.removed != 1 && s.sock == sock {
          return;
        }
        s, k := s.next, k + 1;
      }
    }

    /** close_session marks; the list is left alone. */
    method Close(s: Session)
      requires Valid() && (s in Online || s in Free)
      modifies s`removed, s`shaken, `hasRemoved
      ensures Valid() && s.removed == 1 && s.shaken == 0 && hasRemoved == 1
      ensures s in Online ==> Marked() == old(Marked()) + {s}
    {
      s.removed := 1;
      s.shaken := 0;
      hasRemoved := 1;
    }

    /** Take the session in place `k` out of the online list, through the pointer that points to it. */
    method Unlink(prev: Session?, s: Session, ghost k: nat)
      requires Sound(null) && Place(prev, s, k)
      modifies `online, `Online, Cell(prev)`next, s`next
      ensures s.next == null && Online == Without(old(Online), k) && Sound(s)
    {
      if prev == null {
        online := s.next;
      } else {
        prev.next := s.next;
      }
      s.next := null;
      Online := Without(Online, k);
      GoesOffline(slab, old(Online), Free, k, Gone);
    }

    /** `s` is in place `k`, and `prev` before it, or there is none. */
    ghost predicate Place(prev: Session?, s: Session, k: nat)
      reads this
    {
      k < |Online| && s == Online[k] && prev == if k == 0 then null else Online[k - 1]
    }

    /** A marked session leaves: unlinked, its socket closed, its memory handed back. */
    method Drop(prev: Session?, s: Session, ghost k: nat) returns (sock: int)
      requires Sound(null) && Place(prev, s, k)
      modifies `online, `Online, `free, `Free, `Gone, Cell(prev)`next, s`next, s`sock
      ensures Sound(null) && Online == Without(old(Online), k) && sock == old(s.sock)
      ensures Free == if s in slab then [s] + old(Free) else old(Free)
      ensures Gone == if s in slab then old(Gone) else old(Gone) + {s}
    {
      Unlink(prev, s, k);
      sock := s.sock;
      s.sock := 0;
      CacheFree(s);
    }

    /** clear_offline_session: the marked sessions leave, the others stay in order, every socket of a marked
        session is closed once. */
    method Clear() returns (closed: seq<int>)
      requires Valid()
      modifies this, Online
      ensures Valid() && hasRemoved == 0
      ensures Online == Live(old(Online), old(Marked()))
      ensures Free == Recycled(old(Online), old(Marked()), slab) + old(Free)
      ensures closed == old(Sockets(Online, Marked()))
      ensures Gone == old(Gone) + Lost(old(Online), old(Marked()), slab)
    {
      closed := [];
      ghost var all, marked := Online, Marked();
      ghost var n := |all|;
      assert all[..n] == all;
      if hasRemoved == 0 {
        NoneMarked(all, marked, slab);
        return;
      }
      ghost var socks := seq(n, j requires 0 <= j < n && n == |all| reads all => all[j].sock);
      ClosingIsSockets(all, marked, socks, n);
      closed := Sweep(all, marked, socks);
      LiveIsUnmarked(all, marked);
      hasRemoved := 0;
    }

    method Sweep(ghost all: seq<Session>, ghost marked: set<Session>, ghost socks: seq<int>) returns (closed: seq<int>)
      requires Sound(null) && Online == all && forall s :: s in all ==> (s in marked) == (s.removed != 0)
      requires |socks| == |all| && Open(all, socks, 0)
      modifies `online, `Online, `free, `Free, `Gone, all`next, all`sock
      ensures Sound(null) && Online == Live(all, marked)
      ensures Free == Recycled(all, marked, slab) + old(Free)
      ensures closed == Closing(all, marked, socks, |all|)
      ensures Gone == old(Gone) + Lost(all, marked, slab)
    {
      closed := [];
      var prev: Session? := null;
      ghost var i, k := 0, 0;
      ghost var free0, gone0 := Free, Gone;
      SweepStarts(all, marked, socks, free0, gone0);
      while Pointee(prev) != null
        invariant i <= |all| && Swept(all, marked, socks, i, k, prev, free0, gone0)
        invariant closed == Closing(all, marked, socks, i)
        decreases |all| - i
      {
        prev, closed, k := SweepOne(prev, closed, all, marked, socks, i, k, free0, gone0);
        i := i + 1;
      }
      SweepEnds(all, marked, socks, i, k, prev, free0, gone0);
    }

    /** The body of the loop: the session behind the pointer leaves, or the pointer moves behind it. */
    method SweepOne(prev: Session?, closed: seq<int>, ghost all: seq<Session>, ghost marked: set<Session>,
                    ghost socks: seq<int>, ghost i: nat, ghost k: nat, ghost free0: seq<Session>, ghost gone0: set<Session>)
      returns (prev': Session?, closed': seq<int>, ghost k': nat)
      requires i <= |all| && Swept(all, marked, socks, i, k, prev, free0, gone0)
      requires closed == Closing(all, marked, socks, i) && Pointee(prev) != null
      modifies `online, `Online, `free, `Free, `Gone, all`next, all`sock
      ensures i < |all| && Swept(all, marked, socks, i + 1, k', prev', free0, gone0)
      ensures closed' == Closing(all, marked, socks, i + 1)
    {
      CurrentIs(all, marked, i, k, prev);
      var s := Pointee(prev);
      if s.removed != 0 {
        var sock := Leaves(prev, s, all, marked, socks, i, k, free0, gone0);
        prev', closed', k' := prev, closed + [sock], k;
      } else {
        Stays(all, marked, socks, i, k, prev, free0, gone0);
        prev', closed', k' := s, closed, k + 1;
      }
    }

    lemma SweepEnds(all: seq<Session>, marked: set<Session>, socks: seq<int>, i: nat, k: nat, prev: Session?,
                    free0: seq<Session>, gone0: set<Session>)
      requires i <= |all| && Swept(all, marked, socks, i, k, prev, free0, gone0) && Pointee(prev) == null
      ensures i == |all| && Online == Live(all, marked)
      ensures Free == Recycled(all, marked, slab) + free0 && Gone == gone0 + Lost(all, marked, slab)
    {
      CurrentIs(all, marked, i, k, prev);
      assert all[..i] == all;
    }

    /** The sockets that the sweep has not reached are as they were. */
    ghost predicate Open(all: seq<Session>, socks: seq<int>, i: nat)
      reads all
      requires |socks| == |all|
    {
      forall j :: i <= j < |all| ==> all[j].sock == socks[j]
    }

    ghost predicate Swept(all: seq<Session>, marked: set<Session>, socks: seq<int>, i: nat, k: nat, prev: Session?,
                          free0: seq<Session>, gone0: set<Session>)
      reads this, Online, Free, all
      requires i <= |all|
    {
      && Sound(null) && Distinct(all) && OnTheWay(all, marked, i, k, prev)
      && |socks| == |all| && Open(all, socks, i)
      && Free == Recycled(all[..i], marked, slab) + free0
      && Gone == gone0 + Lost(all[..i], marked, slab)
    }

    lemma SweepStarts(all: seq<Session>, marked: set<Session>, socks: seq<int>, free0: seq<Session>, gone0: set<Session>)
      requires Sound(null) && Online == all && Free == free0 && Gone == gone0
      requires forall s :: s in all ==> (s in marked) == (s.removed != 0)
      requires |socks| == |all| && Open(all, socks, 0)
      ensures Swept(all, marked, socks, 0, 0, null, free0, gone0)
    {
      var none := all[..0];
      assert Live(none, marked) == [] && none + all[0..] == all && Recycled(none, marked, slab) == [];
    }

    method Leaves(prev: Session?, s: Session, ghost all: seq<Session>, ghost marked: set<Session>, ghost socks: seq<int>,
                  ghost i: nat, ghost k: nat, ghost free0: seq<Session>, ghost gone0: set<Session>) returns (sock: int)
      requires i < |all| && Swept(all, marked, socks, i, k, prev, free0, gone0) && s == all[i] && s in marked
      requires Place(prev, s, k)
      modifies `online, `Online, `free, `Free, `Gone, Cell(prev)`next, s`next, s`sock
      ensures Swept(all, marked, socks, i + 1, k, prev, free0, gone0) && sock == socks[i]
    {
      KeepGoing(all, marked, slab, i, k);
      GoesOn(Recycled(all[..i], marked, slab), free0, Lost(all[..i], marked, slab), gone0, s);
      ghost var before := Online;
      sock := Drop(prev, s, k);
      WithoutKeeps(before, k, Online);
    }

    lemma Stays(all: seq<Session>, marked: set<Session>, socks: seq<int>, i: nat, k: nat, prev: Session?,
                free0: seq<Session>, gone0: set<Session>)
      requires i < |all| && all[i] !in marked && Swept(all, marked, socks, i, k, prev, free0, gone0)
      ensures Swept(all, marked, socks, i + 1, k + 1, all[i], free0, gone0)
    {
      CurrentIs(all, marked, i, k, prev);
      KeepGoing(all, marked, slab, i, k);
    }

    /** *walk: the pointer cell is the head of the list or a next field. */
    function Pointee(prev: Session?): Session?
      reads this, prev
    {
      if prev == null then online else prev.next
    }

    /** The first `i` of all sessions are done: the unmarked ones among them stand in front of the rest. */
    ghost predicate OnTheWay(all: seq<Session>, marked: set<Session>, i: nat, k: nat, prev: Session?)
      reads this, Online, all
      requires i <= |all|
    {
      && Online == Live(all[..i], marked) + all[i..] && k == |Live(all[..i], marked)|
      && prev == (if k == 0 then null else Online[k - 1])
      && forall s :: s in all ==> (s in marked) == (s.removed != 0)
    }

    lemma CurrentIs(all: seq<Session>, marked: set<Session>, i: nat, k: nat, prev: Session?)
      requires i <= |all| && OnTheWay(all, marked, i, k, prev) && Linked(online, Online)
      ensures Pointee(prev) == if i < |all| then all[i] else null
      ensures i < |all| ==> Place(prev, all[i], k)
      ensures prev != null ==> prev in all[..i]
    {
      if k > 0 {
        assert Online[k - 1].next == After(Online, k - 1);
        LiveIsUnmarked(all[..i], marked);
      }
    }
  }

  lemma GoesOn(r: seq<Session>, free0: seq<Session>, lost: set<Session>, gone0: set<Session>, s: Session)
    ensures [s] + (r + free0) == [s] + r + free0
    ensures gone0 + lost + {s} == gone0 + (lost + {s})
  {
  }

  lemma WithoutKeeps(before: seq<Session>, k: nat, online: seq<Session>)
    requires k < |before| && online == Without(before, k)
    ensures k > 0 ==> online[k - 1] == before[k - 1]
  {
  }

  /** Going on by one session, whether it leaves or stays. */
  lemma KeepGoing(all: seq<Session>, marked: set<Session>, slab: seq<Session>, i: nat, k: nat)
    requires i < |all| && k == |Live(all[..i], marked)|
    ensures |Live(all[..i + 1], marked)| == if all[i] in marked then k else k + 1
    ensures Live(all[..i + 1], marked) + all[i + 1..]
         == (if all[i] in marked then Without(Live(all[..i], marked) + all[i..], k) else Live(all[..i], marked) + all[i..])
    ensures Recycled(all[..i + 1], marked, slab)
         == if all[i] in marked && all[i] in slab then [all[i]] + Recycled(all[..i], marked, slab) else Recycled(all[..i], marked, slab)
    ensures Lost(all[..i + 1], marked, slab)
         == if all[i] in marked && all[i] !in slab then Lost(all[..i], marked, slab) + {all[i]} else Lost(all[..i], marked, slab)
  {
    assert all[..i + 1][..i] == all[..i];
    assert all[..i + 1] == all[..i] + [all[i]];
    assert all[i..] == [all[i]] + all[i + 1..];
  }

  lemma {:induction false} LiveIsUnmarked(all: seq<Session>, marked: set<Session>)
    ensures forall s :: s in Live(all, marked) ==> s in all && s !in marked
    decreases |all|
  {
    if all != [] {
      var init, last := all[..|all| - 1], all[|all| - 1];
      LiveIsUnmarked(init, marked);
      assert all == init + [last];
    }
  }

  lemma {:induction false} NoneMarked(all: seq<Session>, marked: set<Session>, slab: seq<Session>)
    requires forall s :: s in all ==> s !in marked
    ensures Live(all, marked) == all && Recycled(all, marked, slab) == [] && Lost(all, marked, slab) == {}
    ensures Sockets(all, marked) == []
    decreases |all|
  {
    if all != [] {
      NoneMarked(all[..|all| - 1], marked, slab);
    }
  }

  method Block(n: nat) returns (nodes: seq<Session>)
    ensures |nodes| == n && fresh(nodes) && Distinct(nodes)
  {
    nodes := [];
    while |nodes| < n
      invariant |nodes| <= n && fresh(nodes) && Distinct(nodes)
    {
      var s := new Session();
      nodes := nodes + [s];
    }
  }

  lemma LinkedTail(head: Session?, nodes: seq<Session>)
    requires nodes != [] && Linked(head, nodes)
    ensures Linked(nodes[0].next, nodes[1..])
  {
    var tail := nodes[1..];
    assert nodes[0].next == After(nodes, 0) == First(tail);
    forall i: nat | i < |tail| ensures tail[i].next == After(tail, i) {
      assert nodes[i + 1].next == After(nodes, i + 1);
    }
  }

  lemma TakeFromFree(slab: seq<Session>, online: seq<Session>, free: seq<Session>, gone: set<Session>)
    requires free != [] && Ledger(slab, online, free, null, gone)
    ensures Ledger(slab, online, free[1..], free[0], gone)
  {
  }

  lemma PutBack(slab: seq<Session>, online: seq<Session>, free: seq<Session>, s: Session, gone: set<Session>)
    requires s in slab && Ledger(slab, online, free, s, gone)
    ensures Ledger(slab, online, [s] + free, null, gone)
  {
  }

  lemma BringOnline(slab: seq<Session>, online: seq<Session>, free: seq<Session>, s: Session, gone: set<Session>)
    requires Ledger(slab, online, free, s, gone)
    ensures Ledger(slab, [s] + online, free, null, gone)
  {
  }

  lemma GoesOffline(slab: seq<Session>, online: seq<Session>, free: seq<Session>, k: nat, gone: set<Session>)
    requires k < |online| && Ledger(slab, online, free, null, gone)
    ensures Ledger(slab, Without(online, k), free, online[k], gone)
  {
  }

  ghost function Members(nodes: seq<Session>): set<Session> {
    set s | s in nodes
  }

  lemma {:induction false} DistinctCount(nodes: seq<Session>)
    requires Distinct(nodes)
    ensures |Members(nodes)| == |nodes|
    decreases |nodes|
  {
    if nodes != [] {
      var init, last := nodes[..|nodes| - 1], nodes[|nodes| - 1];
      DistinctCount(init);
      assert Members(nodes) == Members(init) + {last};
    }
  }

  /** In every reachable state the slab is fully accounted for: free sessions and online sessions of the slab
      add up to its size. */
  lemma SlabConserved(m: Manager)
    requires m.Valid()
    ensures |m.Free| + |Members(m.Online) * Members(m.slab)| == MAX_SESSION_NUM
  {
    DistinctCount(m.slab);
    DistinctCount(m.Free);
    var busy := Members(m.Online) * Members(m.slab);
    assert Members(m.slab) == Members(m.Free) + busy;
    assert Members(m.Free) !! busy;
  }
}
