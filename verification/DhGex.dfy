/** Choice of a group from the moduli file for the group exchange (RFC 4419, section 3). */
module DhGex {
  import opened Bytes

  const DH_PMIN := 2048
  const DH_PMAX := 8192
  const SAFE_PRIME := 2
  const SIZE_T := 0x1_0000_0000_0000_0000

  /** The minimum, preferred and maximum number of bits. */
  datatype Window = Window(pmin: nat, pn: nat, pmax: nat)

  /** One line of the file: a comment, one that cannot be read, or an entry with its seven fields less the dates. */
  datatype Line = Comment | Invalid | Entry(kind: nat, tests: nat, size: nat, generator: string, modulus: string)

  /** The best size so far, the number of lines of that size, and the line the kept pair is from. */
  datatype Choice = Choice(best: nat, nlines: nat, kept: Option<nat>)

  predicate Ordered(w: Window) {
    0 < w.pn && w.pmin <= w.pn <= w.pmax
  }

  /** Whether the proposed size is more appropriate than the current one. */
  function BetterSize(w: Window, current: nat, proposed: nat): bool {
    if current == proposed then false
    else if current == w.pn then false
    else if current == 0 && w.pmin <= proposed <= w.pmax then true
    else if proposed < w.pmin || proposed > w.pmax then false
    else if current == 0 then false
    else if proposed >= w.pn && proposed < current then true
    else if proposed <= w.pn && proposed > current then true
    else proposed >= w.pn && current < w.pn
  }

  /** Only safe primes that have been tested. */
  predicate Tested(l: Line) {
    l.Entry? && l.kind == SAFE_PRIME && l.tests / 4 % 2 == 1
  }

  /** The file states one bit less than the size. */
  function Proposed(l: Line): nat
    requires l.Entry?
  {
    (l.size + 1) % SIZE_T
  }

  // What the choice should be

  /** A tested line of `s` bits. */
  predicate HasSize(l: Line, s: nat) {
    Tested(l) && Proposed(l) == s
  }

  /** A tested line whose size lies in the window; size zero is none. */
  predicate Candidate(l: Line, w: Window) {
    Tested(l) && Proposed(l) != 0 && w.pmin <= Proposed(l) <= w.pmax
  }

  /** Nothing if there is no candidate, else the smallest size from the preferred one up, else the largest below it. */
  ghost predicate Optimal(lines: seq<Line>, w: Window, best: nat) {
    if best == 0 then
      forall l :: l in lines ==> !Candidate(l, w)
    else
      && (exists l :: l in lines && Candidate(l, w) && Proposed(l) == best)
      && if best >= w.pn then
           forall l :: l in lines && Candidate(l, w) && Proposed(l) >= w.pn ==> best <= Proposed(l)
         else
           forall l :: l in lines && Candidate(l, w) ==> Proposed(l) <= best
  }

  /** There is one such size, and it depends only on which lines there are. */
  lemma OptimalUnique(a: seq<Line>, b: seq<Line>, w: Window, x: nat, y: nat)
    requires Optimal(a, w, x) && Optimal(b, w, y) && forall l :: l in a <==> l in b
    ensures x == y
  {
    if x != 0 {
      var l :| l in a && Candidate(l, w) && Proposed(l) == x;
      assert l in b;
    }
    if y != 0 {
      var l :| l in b && Candidate(l, w) && Proposed(l) == y;
      assert l in a;
    }
  }

  // The scan

  /** The effect of a line, given the random number drawn if one is wanted. */
  function Step(w: Window, l: Line, at: nat, draw: Option<nat>, c: Choice): Choice {
    if !Tested(l) then c
    else
      var better := Proposed(l) != c.best && BetterSize(w, c.best, Proposed(l));
      var best := if better then Proposed(l) else c.best;
      if Proposed(l) != best then c
      else
        var n := (if better then 0 else c.nlines) + 1;
        Choice(best, n, if draw.Some? && draw.value % n == 0 then Some(at) else c.kept)
  }

  function Scan(w: Window, lines: seq<Line>, random: nat -> Option<nat>): Choice {
    if lines == [] then Choice(0, 0, None)
    else var k := |lines| - 1; Step(w, lines[k], k, random(k), Scan(w, lines[..k], random))
  }

  /** On a size in the window the comparison is the order the optimum is the first in. */
  lemma BetterInWindow(w: Window, current: nat, proposed: nat)
    requires Ordered(w) && (current == 0 || w.pmin <= current <= w.pmax)
    ensures proposed != 0 && w.pmin <= proposed <= w.pmax ==>
      (BetterSize(w, current, proposed) <==>
        current == 0 || (if current >= w.pn then w.pn <= proposed < current else proposed > current))
    ensures !(w.pmin <= proposed <= w.pmax) || proposed == 0 ==> !BetterSize(w, current, proposed)
  {
  }

  lemma OptimalStep(w: Window, lines: seq<Line>, l: Line, at: nat, draw: Option<nat>, c: Choice)
    requires Ordered(w) && Optimal(lines, w, c.best)
    ensures Optimal(lines + [l], w, Step(w, l, at, draw, c).best)
  {
    var all := lines + [l];
    assert forall m :: m in all <==> m in lines || m == l;
    if Tested(l) {
      BetterInWindow(w, c.best, Proposed(l));
    }
  }

  /** The scan ends with the optimum, whatever is drawn. */
  lemma {:induction false} ScanIsOptimal(w: Window, lines: seq<Line>, random: nat -> Option<nat>)
    requires Ordered(w)
    ensures Optimal(lines, w, Scan(w, lines, random).best)
  {
    if lines != [] {
      var k := |lines| - 1;
      ScanIsOptimal(w, lines[..k], random);
      OptimalStep(w, lines[..k], lines[k], k, random(k), Scan(w, lines[..k], random));
      assert lines[..k] + [lines[k]] == lines;
    }
  }

  /** The size chosen does not depend on the order of the lines, on repetitions or on what is drawn. */
  lemma OrderDoesNotMatter(w: Window, a: seq<Line>, b: seq<Line>, ra: nat -> Option<nat>, rb: nat -> Option<nat>)
    requires Ordered(w) && forall l :: l in a <==> l in b
    ensures Scan(w, a, ra).best == Scan(w, b, rb).best
  {
    ScanIsOptimal(w, a, ra);
    ScanIsOptimal(w, b, rb);
    OptimalUnique(a, b, w, Scan(w, a, ra).best, Scan(w, b, rb).best);
  }

  /** With a preferred size of zero nothing is ever chosen. */
  lemma {:induction false} NothingPreferred(w: Window, lines: seq<Line>, random: nat -> Option<nat>)
    requires w.pn == 0
    ensures Scan(w, lines, random).best == 0
  {
    if lines != [] {
      NothingPreferred(w, lines[..|lines| - 1], random);
    }
  }

  // The pair that is kept

  function NumberOf(lines: seq<Line>, s: nat): nat {
    if lines == [] then 0
    else NumberOf(lines[..|lines| - 1], s) + if HasSize(lines[|lines| - 1], s) then 1 else 0
  }

  lemma {:induction false} NoneOfSize(lines: seq<Line>, s: nat)
    ensures NumberOf(lines, s) == 0 <==> forall l :: l in lines ==> !HasSize(l, s)
  {
    if lines != [] {
      var k := |lines| - 1;
      NoneOfSize(lines[..k], s);
      assert lines == lines[..k] + [lines[k]];
      assert forall l :: l in lines <==> l in lines[..k] || l == lines[k];
    }
  }

  /** When a size becomes the best, no line of that size has been seen. */
  lemma FirstOfSize(w: Window, lines: seq<Line>, best: nat, proposed: nat)
    requires Ordered(w) && Optimal(lines, w, best) && BetterSize(w, best, proposed)
    ensures NumberOf(lines, proposed) == 0
  {
    NoneOfSize(lines, proposed);
    BetterInWindow(w, best, proposed);
    assert forall l :: HasSize(l, proposed) ==> Candidate(l, w);
  }

  /** The line count is the number of lines of the best size. */
  lemma {:induction false} ScanCounts(w: Window, lines: seq<Line>, random: nat -> Option<nat>)
    requires Ordered(w)
    ensures var c := Scan(w, lines, random); c.nlines == NumberOf(lines, c.best)
  {
    if lines != [] {
      var k := |lines| - 1;
      var c := Scan(w, lines[..k], random);
      ScanCounts(w, lines[..k], random);
      ScanIsOptimal(w, lines[..k], random);
      if Tested(lines[k]) && BetterSize(w, c.best, Proposed(lines[k])) {
        FirstOfSize(w, lines[..k], c.best, Proposed(lines[k]));
      }
    }
  }

  /** Line `j` has `s` bits and is drawn: with the n-th line of a size, one random number in n does that. */
  predicate Drawn(lines: seq<Line>, s: nat, random: nat -> Option<nat>, j: nat)
    requires j < |lines|
  {
    var n := NumberOf(lines[..j + 1], s);
    HasSize(lines[j], s) && random(j).Some? && n > 0 && random(j).value % n == 0
  }

  /** The pair kept belongs to the size chosen. */
  ghost predicate KeptFits(lines: seq<Line>, c: Choice) {
    c.kept.Some? && c.kept.value < |lines| && HasSize(lines[c.kept.value], c.best)
  }

  ghost predicate SomeDrawn(lines: seq<Line>, s: nat, random: nat -> Option<nat>) {
    exists j :: 0 <= j < |lines| && Drawn(lines, s, random, j)
  }

  lemma DrawnPrefix(lines: seq<Line>, s: nat, random: nat -> Option<nat>, k: nat, j: nat)
    requires j < k <= |lines|
    ensures Drawn(lines[..k], s, random, j) <==> Drawn(lines, s, random, j)
  {
    assert lines[..k][..j + 1] == lines[..j + 1];
  }

  lemma SomeDrawnStep(lines: seq<Line>, s: nat, random: nat -> Option<nat>)
    requires lines != []
    ensures SomeDrawn(lines, s, random) <==>
      SomeDrawn(lines[..|lines| - 1], s, random) || Drawn(lines, s, random, |lines| - 1)
  {
    var k := |lines| - 1;
    forall j | 0 <= j < k
      ensures Drawn(lines[..k], s, random, j) <==> Drawn(lines, s, random, j)
    {
      DrawnPrefix(lines, s, random, k, j);
    }
  }

  lemma {:induction false} KeptIsLine(w: Window, lines: seq<Line>, random: nat -> Option<nat>)
    ensures var c := Scan(w, lines, random); c.kept.Some? ==> c.kept.value < |lines|
  {
    if lines != [] {
      KeptIsLine(w, lines[..|lines| - 1], random);
    }
  }

  lemma KeptStep(w: Window, lines: seq<Line>, random: nat -> Option<nat>)
    requires Ordered(w) && lines != []
    requires var p := lines[..|lines| - 1]; var c := Scan(w, p, random);
      c.best > 0 ==> (KeptFits(p, c) <==> SomeDrawn(p, c.best, random))
    ensures var c := Scan(w, lines, random); c.best > 0 ==> (KeptFits(lines, c) <==> SomeDrawn(lines, c.best, random))
  {
    var k := |lines| - 1;
    var p, l, c, d := lines[..k], lines[k], Scan(w, lines[..k], random), Scan(w, lines, random);
    SomeDrawnStep(lines, d.best, random);
    KeptIsLine(w, p, random);
    ScanCounts(w, lines, random);
    assert lines[..k + 1] == lines;
    assert d.kept.Some? && d.kept.value < k ==> lines[d.kept.value] == p[d.kept.value];
    if d.best > 0 && d.best != c.best {
      ScanIsOptimal(w, p, random);
      FirstOfSize(w, p, c.best, d.best);
      NoneOfSize(p, d.best);
      assert !SomeDrawn(p, d.best, random);
    }
  }

  /** Exactly when a line of the chosen size was drawn does the kept pair belong to that size. */
  lemma {:induction false} KeptFitsExactly(w: Window, lines: seq<Line>, random: nat -> Option<nat>)
    requires Ordered(w)
    ensures var c := Scan(w, lines, random); c.best > 0 ==> (KeptFits(lines, c) <==> SomeDrawn(lines, c.best, random))
  {
    if lines != [] {
      KeptFitsExactly(w, lines[..|lines| - 1], random);
      KeptStep(w, lines, random);
    }
  }

  /** Of the lines of the chosen size that were drawn the last one is kept. */
  lemma {:induction false} LastDrawnIsKept(w: Window, lines: seq<Line>, random: nat -> Option<nat>, j: nat)
    requires Ordered(w) && j < |lines| && Scan(w, lines, random).best > 0
    requires var s := Scan(w, lines, random).best;
      Drawn(lines, s, random, j) && forall i :: j < i < |lines| ==> !Drawn(lines, s, random, i)
    ensures Scan(w, lines, random).kept == Some(j)
    decreases |lines|
  {
    var k := |lines| - 1;
    var p, c, d := lines[..k], Scan(w, lines[..k], random), Scan(w, lines, random);
    ScanCounts(w, lines, random);
    assert lines[..k + 1] == lines;
    if j < k {
      assert !Drawn(lines, d.best, random, k);
      forall i | 0 <= i < k ensures Drawn(p, d.best, random, i) <==> Drawn(lines, d.best, random, i) {
        DrawnPrefix(lines, d.best, random, k, i);
      }
      if d.best == c.best {
        LastDrawnIsKept(w, p, random, j);
      } else {
        ScanIsOptimal(w, p, random);
        FirstOfSize(w, p, c.best, d.best);
        NoneOfSize(p, d.best);
        assert false;
      }
    }
  }

  /** The first line of a size is always drawn if the source of random numbers works. */
  lemma {:induction false} FirstIsDrawn(lines: seq<Line>, s: nat, random: nat -> Option<nat>)
    requires NumberOf(lines, s) > 0 && forall i :: random(i).Some?
    ensures SomeDrawn(lines, s, random)
  {
    var k := |lines| - 1;
    SomeDrawnStep(lines, s, random);
    if NumberOf(lines[..k], s) > 0 {
      FirstIsDrawn(lines[..k], s, random);
    } else {
      assert lines[..k + 1] == lines;
    }
  }

  /** With a working source of random numbers the kept generator and modulus come from one line of the chosen size. */
  lemma {:induction false} KeptFitsWhenRandomWorks(w: Window, lines: seq<Line>, random: nat -> Option<nat>)
    requires Ordered(w) && forall i :: random(i).Some?
    ensures var c := Scan(w, lines, random); c.best > 0 ==> KeptFits(lines, c)
  {
    var c := Scan(w, lines, random);
    if c.best > 0 {
      ScanIsOptimal(w, lines, random);
      NoneOfSize(lines, c.best);
      FirstIsDrawn(lines, c.best, random);
      KeptFitsExactly(w, lines, random);
    }
  }

  /** When it fails at the wrong moment the pair of a smaller group is kept under the size of a larger one. */
  lemma StalePair(w: Window, small: Line, large: Line, random: nat -> Option<nat>)
    requires w == Window(2048, 4096, 8192)
    requires small == Entry(2, 4, 2047, "2", "small") && large == Entry(2, 4, 4095, "2", "large")
    requires random(0) == Some(7) && random(1) == None
    ensures Scan(w, [small, large], random) == Choice(4096, 1, Some(0))
  {
    assert [small, large][..1] == [small] && [small][..0] == [];
    assert Scan(w, [small], random) == Choice(2048, 1, Some(0));
  }

  /** Read the file to its end. */
  method RetrieveFromFile(moduli: seq<Line>, w: Window, random: nat -> Option<nat>)
    returns (bestSize: nat, generator: Option<string>, modulus: Option<string>, ghost kept: Option<nat>)
    ensures bestSize == Scan(w, moduli, random).best && kept == Scan(w, moduli, random).kept
    ensures kept.None? ==> generator == None && modulus == None
    ensures kept.Some? ==> (kept.value < |moduli| && moduli[kept.value].Entry?
      && generator == Some(moduli[kept.value].generator) && modulus == Some(moduli[kept.value].modulus))
    ensures kept.Some? ==> moduli[kept.value].kind == 2 && moduli[kept.value].tests / 4 % 2 == 1
    ensures Ordered(w) && (forall i :: random(i).Some?) && bestSize > 0 ==>
      kept.Some? && (moduli[kept.value].size + 1) % SIZE_T == bestSize
    ensures Ordered(w) ==> Optimal(moduli, w, bestSize)
    ensures Ordered(w) ==> (bestSize == 0 <==>
      forall l :: l in moduli && l.Entry? && l.kind == 2 && l.tests / 4 % 2 == 1 ==>
        (l.size + 1) % SIZE_T == 0 || !(w.pmin <= (l.size + 1) % SIZE_T <= w.pmax))
    ensures Ordered(w) && (forall i :: random(i).Some?) && bestSize > 0 ==>
      kept.Some? && HasSize(moduli[kept.value], bestSize)
  {
    bestSize, generator, modulus, kept := 0, None, None, None;
    var bestLines, line := 0, 0;
    while line < |moduli|
      invariant line <= |moduli| && Scan(w, moduli[..line], random) == Choice(bestSize, bestLines, kept)
      invariant kept.None? ==> generator == None && modulus == None
      invariant kept.Some? ==> kept.value < line && Tested(moduli[kept.value])
      invariant kept.Some? ==> (kept.value < line && moduli[kept.value].Entry?
        && generator == Some(moduli[kept.value].generator) && modulus == Some(moduli[kept.value].modulus))
    {
      var l, at := moduli[line], line;
      assert moduli[..line + 1][..line] == moduli[..line];
      line := line + 1;
      if l.Comment? || l.Invalid? {
        continue;
      }
      if l.kind != SAFE_PRIME || l.tests / 4 % 2 == 0 {
        continue;
      }
      var proposed := (l.size + 1) % SIZE_T;
      if proposed != bestSize && BetterSize(w, bestSize, proposed) {
        bestLines := 0;
        bestSize := proposed;
      }
      if proposed == bestSize {
        bestLines := bestLines + 1;
      }
      if proposed == bestSize && random(at).Some? && random(at).value % bestLines == 0 {
        generator, modulus := Some(l.generator), Some(l.modulus);
        kept := Some(at);
      }
    }
    assert moduli[..line] == moduli;
    if Ordered(w) {
      ScanIsOptimal(w, moduli, random);
      if forall i :: random(i).Some? {
        KeptFitsWhenRandomWorks(w, moduli, random);
      }
    }
  }

  // The server's side of a request

  /** Which requests the server answers. */
  predicate Answered(w: Window) {
    w.pmin <= w.pn <= w.pmax && w.pn <= DH_PMAX && w.pmax >= DH_PMIN
  }

  /** No group of fewer than 2048 bits is handed out. */
  function Clamped(w: Window): Window {
    if w.pmin < DH_PMIN then Window(DH_PMIN, if w.pn < DH_PMIN then DH_PMIN else w.pn, w.pmax) else w
  }

  predicate LargeCandidate(l: Line, w: Window) {
    Candidate(l, w) && Proposed(l) >= DH_PMIN
  }

  /** The clamped request asks for what the original one asks for, among the groups of at least 2048 bits. */
  lemma ClampedIsOptimal(lines: seq<Line>, w: Window, best: nat)
    requires Answered(w) && Optimal(lines, Clamped(w), best)
    ensures best == 0 <==> forall l :: l in lines ==> !LargeCandidate(l, w)
    ensures best != 0 ==> exists l :: l in lines && LargeCandidate(l, w) && Proposed(l) == best
    ensures best >= w.pn ==>
      forall l :: l in lines && LargeCandidate(l, w) && Proposed(l) >= w.pn ==> best <= Proposed(l)
    ensures 0 < best < w.pn ==> forall l :: l in lines && LargeCandidate(l, w) ==> Proposed(l) <= best
  {
    assert forall l :: Candidate(l, Clamped(w)) <==> LargeCandidate(l, w);
  }

  /** A modulus and a generator with the size that is announced for them. */
  datatype Group = Group(size: nat, generator: nat, modulus: nat)

  /** Both texts of the line are hexadecimal numbers; `hex` reads one. */
  predicate Readable(l: Line, hex: string -> Option<nat>) {
    l.Entry? && hex(l.generator).Some? && hex(l.modulus).Some?
  }

  /** The scan keeps a line, and both its texts can be read. */
  predicate KeepsReadable(c: Choice, lines: seq<Line>, hex: string -> Option<nat>) {
    c.best != 0 && c.kept.Some? && c.kept.value < |lines| && Readable(lines[c.kept.value], hex)
  }

  lemma ReadableIsKept(lines: seq<Line>, w: Window, random: nat -> Option<nat>, hex: string -> Option<nat>)
    requires Answered(w) && forall i :: random(i).Some?
    requires forall l :: l in lines && LargeCandidate(l, w) ==> Readable(l, hex)
    requires Scan(Clamped(w), lines, random).best != 0
    ensures KeepsReadable(Scan(Clamped(w), lines, random), lines, hex)
  {
    ScanIsOptimal(Clamped(w), lines, random);
    KeptFitsWhenRandomWorks(Clamped(w), lines, random);
  }

  /**
   * The group for a request, if it is acceptable, there is one, and its numbers can be read. A line whose numbers
   * cannot be read is not passed over for another one.
   */
  method ServerRequest(pmin: nat, pn: nat, pmax: nat, moduli: seq<Line>, random: nat -> Option<nat>,
                       hex: string -> Option<nat>)
    returns (group: Option<Group>)
    ensures var w := Window(pmin, pn, pmax);
      group.Some? <==> Answered(w) && KeepsReadable(Scan(Clamped(w), moduli, random), moduli, hex)
    ensures group.Some? ==> pmin <= pn <= pmax && pn <= 8192 && 2048 <= group.value.size <= pmax
    ensures group.Some? ==> Optimal(moduli, Clamped(Window(pmin, pn, pmax)), group.value.size)
    ensures var w := Window(pmin, pn, pmax);
      (forall i :: random(i).Some?) && (forall l :: l in moduli && LargeCandidate(l, w) ==> Readable(l, hex)) ==>
        (group.Some? <==>
          pmin <= pn <= pmax && pn <= 8192 && pmax >= 2048 && exists l :: l in moduli && LargeCandidate(l, w))
    ensures (forall i :: random(i).Some?) && group.Some? ==>
      exists l :: l in moduli && HasSize(l, group.value.size)
        && hex(l.generator) == Some(group.value.generator) && hex(l.modulus) == Some(group.value.modulus)
  {
    if pmin > pn || pn > pmax || pn > DH_PMAX || pmax < DH_PMIN {
      return None;
    }
    var min, preferred := pmin, pn;
    if min < DH_PMIN {
      min := DH_PMIN;
      if preferred < min {
        preferred := min;
      }
    }
    ghost var asked := Window(pmin, pn, pmax);
    var w := Window(min, preferred, pmax);
    assert w == Clamped(asked);
    var size, generator, modulus, kept := RetrieveFromFile(moduli, w, random);
    ClampedIsOptimal(moduli, asked, size);
    if (forall i :: random(i).Some?) && size != 0 {
      if forall l :: l in moduli && LargeCandidate(l, asked) ==> Readable(l, hex) {
        ReadableIsKept(moduli, asked, random, hex);
      }
    }
    if size == 0 || generator.None? || modulus.None? {
      return None;
    }
    var g, p := hex(generator.value), hex(modulus.value);
    if g.None? || p.None? {
      return None;
    }
    return Some(Group(size, g.value, p.value));
  }
}
