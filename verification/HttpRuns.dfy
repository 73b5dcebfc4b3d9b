/** Runs of the reference that go through: no error, no other protocol, no byte that is checked or not as the input is cut. */
module HttpRuns {
  import opened HttpStates
  import opened HttpReference

  const CRLF: string := [CR, LF]

  /** The run goes through, calmly. */
  predicate Goes(f: Fields, s: string, g: Fields, atoms: seq<Atom>) {
    Legal(f) && Legal(g) && Calm(f, s) && Fold(f, s) == Turn(g, atoms, false)
  }

  lemma GoesJoin(f: Fields, a: string, g: Fields, x: seq<Atom>, b: string, h: Fields, y: seq<Atom>)
    requires Goes(f, a, g, x) && Goes(g, b, h, y)
    ensures Goes(f, a + b, h, x + y)
  {
    FoldJoin(f, a, b);
    CalmJoin(f, a, b);
  }

  lemma GoesOne(f: Fields, ch: char)
    requires Legal(f) && !f.upgrade && !Unchecked(f, ch) && !Ended(Next(f, ch)) && !Next(f, ch).f.upgrade
    ensures Goes(f, [ch], Next(f, ch).f, Next(f, ch).atoms)
  {
    FoldOne(f, ch);
    NextLegal(f, ch);
    assert [ch][1..] == "";
    assert Calm(Next(f, ch).f, "");
  }

  /** Two bytes through quiet ground. */
  lemma GoesTwo(f: Fields, a: char, g: Fields, b: char, h: Fields, atoms: seq<Atom>)
    requires Legal(f) && !f.state.HeaderValue? && !f.upgrade && Next(f, a) == Turn(g, [], false) && g.errno.OK?
    requires Legal(g) && !g.state.HeaderValue? && !g.upgrade && Next(g, b) == Turn(h, atoms, false) && h.errno.OK?
    requires !h.upgrade
    ensures Goes(f, [a, b], h, atoms)
  {
    GoesOne(f, a);
    GoesOne(g, b);
    GoesJoin(f, [a], g, [], [b], h, atoms);
    assert [a] + [b] == [a, b] && [] + atoms == atoms;
  }

  lemma GoesNothing(f: Fields)
    requires Legal(f) && !f.upgrade
    ensures Goes(f, "", f, [])
  {
  }

  /** The first byte, and the rest. */
  lemma GoesOn(f: Fields, s: string, g: Fields, x: seq<Atom>, h: Fields, y: seq<Atom>)
    requires s != "" && Goes(f, [s[0]], g, x) && Goes(g, s[1..], h, y)
    ensures Goes(f, s, h, x + y)
  {
    GoesJoin(f, [s[0]], g, x, s[1..], h, y);
    assert [s[0]] + s[1..] == s;
  }

  /** Behind a run that goes through, one that does not. */
  lemma GoesNoFurther(f: Fields, a: string, g: Fields, x: seq<Atom>, b: string)
    requires Goes(f, a, g, x) && Ended(Fold(g, b))
    ensures Ended(Fold(f, a + b)) && Fold(f, a + b).f == Fold(g, b).f
  {
    FoldJoin(f, a, b);
  }
}
