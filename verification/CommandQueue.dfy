/** marlinHost.cpp: the command queue, a linked list behind a head node, and the sender's look at its first entry. */
module CommandQueue {

  const RETRIES: nat := 30

  class Node {
    var command: string
    var status: int
    var next: Node?

    constructor (command: string)
      ensures this.command == command && status == 0 && next == null
    {
      this.command, status, next := command, 0, null;
    }
  }

  function After(nodes: seq<Node>, i: nat): Node? {
    if i + 1 < |nodes| then nodes[i + 1] else null
  }

  /** `nodes` is the whole list behind the head node, in order. */
  ghost predicate Linked(head: Node, nodes: seq<Node>)
    reads head, nodes
  {
    && head.next == (if nodes == [] then null else nodes[0])
    && forall i: nat :: i < |nodes| ==> nodes[i].next == After(nodes, i)
  }

  ghost predicate Apart(head: Node, nodes: seq<Node>) {
    head !in nodes && forall i, j :: 0 <= i < j < |nodes| ==> nodes[i] != nodes[j]
  }

  /** What is left of a command when the sender has put NULs over its line end. */
  function Line(command: string): string {
    if command == [] || command[0] == '\r' || command[0] == '\n' then [] else [command[0]] + Line(command[1..])
  }

  /** Nothing to send. */
  predicate Comment(command: string) {
    Line(command) == [] || command[0] == ';'
  }

  lemma {:induction false} LineTwice(command: string)
    ensures Line(Line(command)) == Line(command)
    decreases |command|
  {
    if Line(command) != [] {
      assert Line(command)[1..] == Line(command[1..]);
      LineTwice(command[1..]);
    }
  }

  datatype Sending = Nothing | Sent(command: string)

  class Queue {
    const head: Node
    var last: Node
    var times: nat
    ghost var Nodes: seq<Node>

    ghost predicate Shape()
      reads this, head, Nodes
    {
      && Apart(head, Nodes) && Linked(head, Nodes)
      && last == (if Nodes == [] then head else Nodes[|Nodes| - 1])
    }

    /** Only a command that really goes out is ever marked, so the count of retries never gets anywhere. */
    ghost predicate Valid()
      reads this, head, Nodes
    {
      && Shape() && times == 0
      && forall i: nat :: i < |Nodes| && Nodes[i].status == 1 ==> !Comment(Nodes[i].command)
    }

    /** init. */
    constructor ()
      ensures Valid() && Nodes == [] && fresh(head)
    {
      head := new Node("");
      last := head;
      times := 0;
      Nodes := [];
    }

    /** addGood. */
    method AddGood(command: string)
      requires Valid()
      modifies this, last
      ensures Valid() && |Nodes| == |old(Nodes)| + 1 && Nodes[..|old(Nodes)|] == old(Nodes)
      ensures fresh(Nodes[|old(Nodes)|]) && Nodes[|old(Nodes)|].command == command && Nodes[|old(Nodes)|].status == 0
      ensures forall n :: n in old(Nodes) ==> n.command == old(n.command) && n.status == old(n.status)
    {
      var node := new Node(command);
      last.next := node;
      last := node;
      Nodes := Nodes + [node];
    }

    /** delHeadGoods: whether there was an entry to delete. */
    method DelHeadGoods() returns (found: bool)
      requires Shape()
      modifies `last, `Nodes, head`next
      ensures Shape() && found == (old(Nodes) != [])
      ensures Nodes == if found then old(Nodes)[1..] else []
    {
      found := false;
      if head.next != null {
        var c := head.next;
        if c.next == null {
          last := head;
        }
        head.next := c.next;
        Nodes := Nodes[1..];
        found := true;
      }
    }

    /** view_head: the status of the first entry, or 0. */
    method ViewHead() returns (status: int)
      requires Valid()
      ensures status == if Nodes == [] then 0 else Nodes[0].status
    {
      status := 0;
      if head.next != null {
        status := head.next.status;
      }
    }

    method Trim(c: Node)
      modifies c`command
      ensures c.command == Line(old(c.command))
    {
      var i := 0;
      LineAt(c.command, 0);
      while i < |c.command| && c.command[i] != '\r' && c.command[i] != '\n'
        invariant i <= |c.command| && c.command == old(c.command)
        invariant Line(c.command) == c.command[..i] + Line(c.command[i..])
      {
        i := i + 1;
      }
      c.command := c.command[..i];
    }

    lemma LineAt(s: string, i: nat)
      requires i <= |s|
      ensures s[..0] + Line(s[0..]) == Line(s)
    {
      assert s[0..] == s;
    }

    /** send_head: -1 without an entry, 0 if the first one was only dropped, 1 if it was sent. An entry is sent again
        and again until it is deleted: the branch that drops it after thirty times is dead. */
    method SendHead() returns (r: int, sending: Sending)
      requires Valid()
      modifies this, head, Nodes
      ensures Valid()
      ensures old(Nodes) == [] ==> r == -1 && Nodes == [] && sending == Nothing
      ensures old(Nodes) != [] && Comment(old(Nodes[0].command)) ==> r == 0 && Nodes == old(Nodes)[1..] && sending == Nothing
      ensures old(Nodes) != [] && !Comment(old(Nodes[0].command)) ==>
        r == 1 && Nodes == old(Nodes) && Nodes[0].status == 1 && sending == Sent(Line(old(Nodes[0].command)))
        && Nodes[0].command == Line(old(Nodes[0].command))
      ensures forall i :: 1 <= i < |old(Nodes)| ==>
        old(Nodes)[i].command == old(Nodes[i].command) && old(Nodes)[i].status == old(Nodes[i].status)
    {
      sending := Nothing;
      if head.next == null {
        return -1, Nothing;
      }
      var c := head.next;
      LineTwice(c.command);
      Trim(c);
      if c.status == 1 {
        times := times + 1;
        if times > RETRIES {
          assert false;
        }
      } else {
        times := 0;
      }
      c.status := 1;
      if c.command == [] || c.command[0] == ';' {
        var _ := DelHeadGoods();
        return 0, Nothing;
      }
      times := 0;
      sending := Sent(c.command);
      return c.status, sending;
    }
  }
}
