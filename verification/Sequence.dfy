/** Four-bit sequence detectors (modules/sequence.v).  A pattern is the input vector seq, whose
    bit 3 is expected first; a stream is the inputs so far, oldest first. */
module Sequence {

  type Pattern = p: seq<bool> | |p| == 4 witness [false, false, false, false]

  /** The pattern in order of arrival. */
  function Expected(p: Pattern, i: nat): bool
    requires i < 4
  {
    p[3 - i]
  }

  // ----- the general detector

  datatype Returns = Returns(r1: nat, r2: nat, r3: nat, s3: nat)

  /** return_states: where to go on a mismatch, and after a full match. */
  function ReturnStates(p: Pattern): Returns {
    Returns(
      if p[3] == p[2] then 0 else 1,
      if p[3] == p[2] && p[2] != p[1] then 2 else if p[3] != p[1] then 1 else 0,
      if p[3] == p[2] && p[2] == p[1] && p[1] != p[0] then 3
      else if p[3] == p[1] && p[1] == p[0] && p[3] != p[2] then 2
      else if p[3] != p[0] then 1 else 0,
      if p[3] == p[2] && p[2] == p[1] && p[1] == p[0] then 3
      else if p[3] == p[1] && p[2] == p[0] then 2
      else if p[3] != p[0] then 0 else 1)
  }

  /** The return states without overlap: only the first bit counts. */
  function PlainReturns(p: Pattern, din: bool): Returns {
    var r := if din == p[3] then 1 else 0;
    Returns(r, r, r, 0)
  }

  function ReturnsFor(overlap: bool, p: Pattern, din: bool): Returns {
    if overlap then ReturnStates(p) else PlainReturns(p, din)
  }

  function Next(overlap: bool, p: Pattern, state: nat, din: bool): nat {
    var r := ReturnsFor(overlap, p, din);
    match state
    case 1 => if din == p[2] then 2 else r.r1
    case 2 => if din == p[1] then 3 else r.r2
    case 3 => if din == p[0] then r.s3 else r.r3
    case _ => if din == p[3] then 1 else 0
  }

  /** What dout becomes on the clock. */
  predicate Hit(p: Pattern, state: nat, din: bool) { state == 3 && din == p[0] }

  /** The state after a stream, the pattern held constant. */
  function State(overlap: bool, p: Pattern, w: seq<bool>): nat {
    if w == [] then 0 else Next(overlap, p, State(overlap, p, w[..|w| - 1]), w[|w| - 1])
  }

  /** dout after a stream. */
  predicate Dout(overlap: bool, p: Pattern, w: seq<bool>) {
    w != [] && Hit(p, State(overlap, p, w[..|w| - 1]), w[|w| - 1])
  }

  // ----- the specification

  /** The last n inputs are the first n of the pattern. */
  ghost predicate Ends(p: Pattern, w: seq<bool>, n: nat)
    requires n <= 4
  {
    n <= |w| && forall i :: 0 <= i < n ==> w[|w| - n + i] == Expected(p, i)
  }

  /** The longest such n, up to 3. */
  ghost function Longest(p: Pattern, w: seq<bool>): nat {
    if Ends(p, w, 3) then 3 else if Ends(p, w, 2) then 2 else if Ends(p, w, 1) then 1 else 0
  }

  lemma EndsStep(p: Pattern, w: seq<bool>, n: nat)
    requires n < 4 && w != []
    ensures Ends(p, w, n + 1) <==> Ends(p, w[..|w| - 1], n) && w[|w| - 1] == Expected(p, n)
  {
    var v := w[..|w| - 1];
    if Ends(p, w, n + 1) {
      forall i | 0 <= i < n ensures v[|v| - n + i] == Expected(p, i) {
        assert v[|v| - n + i] == w[|w| - (n + 1) + i];
      }
      assert w[|w| - (n + 1) + n] == Expected(p, n);
    }
  }

  lemma EndsBits(p: Pattern, w: seq<bool>)
    ensures Ends(p, w, 1) <==> |w| >= 1 && w[|w| - 1] == p[3]
    ensures Ends(p, w, 2) <==> |w| >= 2 && w[|w| - 2] == p[3] && w[|w| - 1] == p[2]
    ensures Ends(p, w, 3) <==> |w| >= 3 && w[|w| - 3] == p[3] && w[|w| - 2] == p[2] && w[|w| - 1] == p[1]
  {
    if Ends(p, w, 1) { assert w[|w| - 1 + 0] == Expected(p, 0); }
    if Ends(p, w, 2) { assert w[|w| - 2 + 0] == Expected(p, 0) && w[|w| - 2 + 1] == Expected(p, 1); }
    if Ends(p, w, 3) {
      assert w[|w| - 3 + 0] == Expected(p, 0) && w[|w| - 3 + 1] == Expected(p, 1) && w[|w| - 3 + 2] == Expected(p, 2);
    }
  }

  /** One step of the specification is one step of the detector. */
  lemma LongestStep(p: Pattern, w: seq<bool>)
    requires w != []
    ensures Longest(p, w) == Next(true, p, Longest(p, w[..|w| - 1]), w[|w| - 1])
    ensures Ends(p, w, 4) <==> Hit(p, Longest(p, w[..|w| - 1]), w[|w| - 1])
  {
    EndsBits(p, w[..|w| - 1]);
    EndsStep(p, w, 0);
    EndsStep(p, w, 1);
    EndsStep(p, w, 2);
    EndsStep(p, w, 3);
  }

  lemma {:induction false} StateIsLongest(p: Pattern, w: seq<bool>)
    ensures State(true, p, w) == Longest(p, w)
  {
    if w != [] {
      StateIsLongest(p, w[..|w| - 1]);
      LongestStep(p, w);
    }
  }

  /** With overlap, for every pattern and every stream: the state is the longest prefix of the
      pattern that ends the stream, and dout is up exactly after the four bits of the pattern. */
  lemma OverlapDetects(p: Pattern, w: seq<bool>)
    ensures State(true, p, w) == Longest(p, w)
    ensures Dout(true, p, w) <==> Ends(p, w, 4)
  {
    StateIsLongest(p, w);
    if w != [] {
      StateIsLongest(p, w[..|w| - 1]);
      LongestStep(p, w);
    }
  }

  // ----- without overlap

  /** The state never promises more than it has seen. */
  lemma {:induction false} StateIsMatch(p: Pattern, w: seq<bool>)
    ensures State(false, p, w) <= 3 && Ends(p, w, State(false, p, w))
  {
    if w != [] {
      var v := w[..|w| - 1];
      StateIsMatch(p, v);
      EndsStep(p, w, State(false, p, v));
      EndsStep(p, w, 0);
      assert Ends(p, v, 0) && Ends(p, w, 0);
    }
  }

  /** d steps after a pulse the state is at most d. */
  lemma {:induction false} StateGrows(p: Pattern, w: seq<bool>, d: nat)
    requires d <= |w| && Dout(false, p, w[..|w| - d])
    ensures State(false, p, w) <= d
  {
    if d == 0 {
      assert w[..|w|] == w;
    } else {
      var v := w[..|w| - 1];
      assert v[..|v| - (d - 1)] == w[..|w| - d];
      StateGrows(p, v, d - 1);
    }
  }

  /** Without overlap every pulse is a true match, and pulses are at least four inputs apart. */
  lemma PulsesAreMatches(p: Pattern, w: seq<bool>)
    requires Dout(false, p, w)
    ensures Ends(p, w, 4)
  {
    StateIsMatch(p, w[..|w| - 1]);
    EndsStep(p, w, 3);
  }

  lemma PulsesApart(p: Pattern, w: seq<bool>, d: nat)
    requires 0 < d <= |w| && Dout(false, p, w) && Dout(false, p, w[..|w| - d])
    ensures d >= 4
  {
    var v := w[..|w| - 1];
    assert v[..|v| - (d - 1)] == w[..|w| - d];
    StateGrows(p, v, d - 1);
  }

  /** The first n bits of the pattern, in order of arrival. */
  function Prefix(p: Pattern, n: nat): seq<bool>
    requires n <= 4
  {
    [p[3], p[2], p[1], p[0]][..n]
  }

  /** An attempt and one more bit: it grows while it agrees with the pattern, is over when it is the whole
      pattern, and on a bit that disagrees starts again with that bit alone, or with nothing. */
  function Extend(p: Pattern, t: seq<bool>, b: bool): seq<bool> {
    if |t| < 3 && t + [b] == Prefix(p, |t| + 1) then t + [b]
    else if t + [b] == Prefix(p, 4) || b != p[3] then []
    else [b]
  }

  /** The attempt in progress after a stream. */
  ghost function Attempt(p: Pattern, w: seq<bool>): seq<bool> {
    if w == [] then [] else Extend(p, Attempt(p, w[..|w| - 1]), w[|w| - 1])
  }

  ghost predicate Partial(p: Pattern, t: seq<bool>) { |t| < 4 && t == Prefix(p, |t|) }

  lemma PrefixOne(p: Pattern, n: nat, t: seq<bool>, b: bool)
    requires n < 4
    ensures t + [b] == Prefix(p, n + 1) <==> t == Prefix(p, n) && b == Expected(p, n)
  {
    assert Prefix(p, n + 1) == Prefix(p, n) + [Expected(p, n)];
    assert (t + [b])[..|t|] == t && (t + [b])[|t|] == b;
    assert Prefix(p, n + 1)[..n] == Prefix(p, n);
  }

  lemma PrefixBits(p: Pattern)
    ensures Prefix(p, 0) == [] && Prefix(p, 1) == [p[3]]
  {
  }

  /** One step of the attempt is one step of the detector. */
  lemma ExtendStep(p: Pattern, t: seq<bool>, b: bool)
    requires Partial(p, t)
    ensures Partial(p, Extend(p, t, b)) && |Extend(p, t, b)| == Next(false, p, |t|, b)
    ensures t + [b] == Prefix(p, 4) <==> Hit(p, |t|, b)
  {
    PrefixBits(p);
    PrefixOne(p, |t|, t, b);
    if |t| < 3 {
      assert |t + [b]| != |Prefix(p, 4)|;
    }
  }

  lemma {:induction false} StateIsAttempt(p: Pattern, w: seq<bool>)
    ensures Partial(p, Attempt(p, w)) && State(false, p, w) == |Attempt(p, w)|
  {
    PrefixBits(p);
    if w != [] {
      StateIsAttempt(p, w[..|w| - 1]);
      ExtendStep(p, Attempt(p, w[..|w| - 1]), w[|w| - 1]);
    }
  }

  /** The inputs have just completed an attempt. */
  ghost predicate Completes(p: Pattern, w: seq<bool>) {
    w != [] && Attempt(p, w[..|w| - 1]) + [w[|w| - 1]] == Prefix(p, 4)
  }

  /** Without overlap, for every pattern and every stream: the state is the length of the attempt in
      progress, and dout is up exactly when an attempt has just become the whole pattern. */
  lemma AttemptsDetected(p: Pattern, w: seq<bool>)
    ensures State(false, p, w) == |Attempt(p, w)|
    ensures Dout(false, p, w) <==> Completes(p, w)
  {
    StateIsAttempt(p, w);
    if w != [] {
      StateIsAttempt(p, w[..|w| - 1]);
      ExtendStep(p, Attempt(p, w[..|w| - 1]), w[|w| - 1]);
    }
  }

  lemma AttemptOne(p: Pattern, v: seq<bool>, b: bool)
    ensures Attempt(p, v + [b]) == Extend(p, Attempt(p, v), b)
    ensures Completes(p, v + [b]) <==> Attempt(p, v) + [b] == Prefix(p, 4)
  {
    assert (v + [b])[..|v|] == v;
  }

  lemma AttemptGrows(p: Pattern, t: seq<bool>, n: nat, b: bool)
    requires Partial(p, t) && 0 < n < 3 && b == Expected(p, n)
    ensures Extend(p, t, b) == Prefix(p, n + 1) <==> t == Prefix(p, n)
  {
    PrefixOne(p, n, t, b);
    PrefixOne(p, |t|, t, b);
  }

  /** So the pulses are exactly the occurrences of the pattern with whose first bit an attempt began. */
  lemma PulsesAreAttempts(p: Pattern, v: seq<bool>)
    ensures Dout(false, p, v + [p[2]] + [p[1]] + [p[0]]) <==> Attempt(p, v) == [p[3]]
  {
    var v2 := v + [p[2]];
    var v3 := v2 + [p[1]];
    StateIsAttempt(p, v);
    StateIsAttempt(p, v2);
    AttemptOne(p, v, p[2]);
    AttemptOne(p, v2, p[1]);
    AttemptOne(p, v3, p[0]);
    AttemptsDetected(p, v3 + [p[0]]);
    TailCompletes(p, Attempt(p, v), Attempt(p, v2), Attempt(p, v3));
  }

  lemma TailCompletes(p: Pattern, t: seq<bool>, t2: seq<bool>, t3: seq<bool>)
    requires Partial(p, t) && t2 == Extend(p, t, p[2]) && Partial(p, t2) && t3 == Extend(p, t2, p[1])
    ensures t3 + [p[0]] == Prefix(p, 4) <==> t == [p[3]]
  {
    PrefixBits(p);
    AttemptGrows(p, t, 1, p[2]);
    AttemptGrows(p, t2, 2, p[1]);
    PrefixOne(p, 3, t3, p[0]);
  }

  /** The four bits of the pattern are found whenever no attempt is in progress before them. */
  lemma FreshFound(p: Pattern, w: seq<bool>)
    requires Attempt(p, w) == []
    ensures Dout(false, p, w + [p[3]] + [p[2]] + [p[1]] + [p[0]])
  {
    PrefixBits(p);
    AttemptOne(p, w, p[3]);
    PrefixOne(p, 0, [], p[3]);
    PulsesAreAttempts(p, w + [p[3]]);
  }

  /** What non-overlapping detection means: the inputs since the last match, and a match as soon
      as those end in the pattern. */
  ghost function Since(p: Pattern, w: seq<bool>): seq<bool> {
    if w == [] then []
    else
      var s := Since(p, w[..|w| - 1]) + [w[|w| - 1]];
      if Ends(p, s, 4) then [] else s
  }

  ghost predicate Greedy(p: Pattern, w: seq<bool>) {
    w != [] && Ends(p, Since(p, w[..|w| - 1]) + [w[|w| - 1]], 4)
  }

  /** Patterns whose failed attempts never contain two or three bits of a new one. */
  predicate Restartable(p: Pattern) { ReturnStates(p).r2 != 2 && ReturnStates(p).r3 < 2 }

  lemma PlainStep(p: Pattern, s: seq<bool>, b: bool)
    requires Restartable(p)
    ensures Next(false, p, Longest(p, s), b)
         == if Hit(p, Longest(p, s), b) then 0 else Next(true, p, Longest(p, s), b)
  {
  }

  lemma LongestEmpty(p: Pattern)
    ensures Longest(p, []) == 0
  {
  }

  lemma {:induction false} PlainIsGreedy(p: Pattern, w: seq<bool>)
    requires Restartable(p)
    ensures State(false, p, w) == Longest(p, Since(p, w))
  {
    LongestEmpty(p);
    if w != [] {
      var v, b := w[..|w| - 1], w[|w| - 1];
      PlainIsGreedy(p, v);
      var s := Since(p, v) + [b];
      assert s[..|s| - 1] == Since(p, v);
      LongestStep(p, s);
      PlainStep(p, Since(p, v), b);
    }
  }

  lemma GreedyDetects(p: Pattern, w: seq<bool>)
    requires Restartable(p)
    ensures Dout(false, p, w) <==> Greedy(p, w)
  {
    if w != [] {
      var v := w[..|w| - 1];
      PlainIsGreedy(p, v);
      var s := Since(p, v) + [w[|w| - 1]];
      assert s[..|s| - 1] == Since(p, v);
      LongestStep(p, s);
    }
  }

  /** A stream on which the other patterns are missed. */
  function Missed(p: Pattern): seq<bool> {
    var a := p[3];
    if ReturnStates(p).r2 == 2 then [a, a, a, !a, p[0]]
    else if ReturnStates(p).r3 == 3 then [a, a, a, a, !a]
    else [a, !a, a, !a, a, a]
  }

  lemma OneMore(overlap: bool, p: Pattern, w: seq<bool>, b: bool)
    ensures State(overlap, p, w + [b]) == Next(overlap, p, State(overlap, p, w), b)
    ensures Since(p, w + [b]) == if Ends(p, Since(p, w) + [b], 4) then [] else Since(p, w) + [b]
  {
    assert (w + [b])[..|w|] == w;
  }

  lemma StateAfterFour(p: Pattern, a: bool, b: bool, c: bool, d: bool)
    ensures State(false, p, [a, b, c, d])
         == Next(false, p, Next(false, p, Next(false, p, Next(false, p, 0, a), b), c), d)
  {
    OneMore(false, p, [], a);
    OneMore(false, p, [a], b);
    OneMore(false, p, [a, b], c);
    OneMore(false, p, [a, b, c], d);
    Growing(a, b, c, d);
  }

  lemma Growing(a: bool, b: bool, c: bool, d: bool)
    ensures [a] == [] + [a] && [a, b] == [a] + [b] && [a, b, c] == [a, b] + [c] && [a, b, c, d] == [a, b, c] + [d]
  {
  }

  lemma SinceAfterThree(p: Pattern, a: bool, b: bool, c: bool)
    ensures Since(p, [a, b, c]) == [a, b, c]
  {
    OneMore(false, p, [], a);
    OneMore(false, p, [a], b);
    OneMore(false, p, [a, b], c);
    Growing(a, b, c, false);
  }

  lemma SinceAfterFour(p: Pattern, a: bool, b: bool, c: bool, d: bool)
    requires !Ends(p, [a, b, c, d], 4)
    ensures Since(p, [a, b, c, d]) == [a, b, c, d]
  {
    SinceAfterThree(p, a, b, c);
    OneMore(false, p, [a, b, c], d);
    Growing(a, b, c, d);
  }

  lemma EndsFour(p: Pattern, w: seq<bool>)
    ensures Ends(p, w, 4)
       <==> |w| >= 4 && w[|w| - 4] == p[3] && w[|w| - 3] == p[2] && w[|w| - 2] == p[1] && w[|w| - 1] == p[0]
  {
    if Ends(p, w, 4) {
      assert w[|w| - 4 + 0] == Expected(p, 0) && w[|w| - 4 + 1] == Expected(p, 1);
      assert w[|w| - 4 + 2] == Expected(p, 2) && w[|w| - 4 + 3] == Expected(p, 3);
    }
  }

  /** The verdicts on one more input. */
  lemma Verdicts(p: Pattern, w: seq<bool>, b: bool)
    ensures Dout(false, p, w + [b]) <==> Hit(p, State(false, p, w), b)
    ensures Greedy(p, w + [b]) <==> Ends(p, Since(p, w) + [b], 4)
  {
    assert (w + [b])[..|w|] == w;
  }

  lemma MissedInFive(p: Pattern, a: bool, b: bool)
    requires a == p[3] == p[2] && b == p[0]
    requires p[1] != a || (p[1] == a && p[0] != a)
    ensures var w := if p[1] != a then [a, a, a, !a, b] else [a, a, a, a, !a];
      !Dout(false, p, w) && Greedy(p, w)
  {
    var v := if p[1] != a then [a, a, a, !a] else [a, a, a, a];
    EndsFour(p, v);
    SinceAfterFour(p, v[0], v[1], v[2], v[3]);
    StateAfterFour(p, v[0], v[1], v[2], v[3]);
    Verdicts(p, v, b);
    EndsFour(p, v + [b]);
    assert v + [b] == if p[1] != a then [a, a, a, !a, b] else [a, a, a, a, !a];
  }

  lemma MissedInSix(p: Pattern, a: bool)
    requires a == p[3] == p[1] == p[0] && p[2] != a
    ensures var w := [a, !a, a, !a, a, a];
      !Dout(false, p, w) && Greedy(p, w)
  {
    var v := [a, !a, a, !a];
    EndsFour(p, v);
    SinceAfterFour(p, a, !a, a, !a);
    StateAfterFour(p, a, !a, a, !a);
    OneMore(false, p, v, a);
    EndsFour(p, v + [a]);
    Verdicts(p, v + [a], a);
    EndsFour(p, v + [a] + [a]);
    assert v + [a] + [a] == [a, !a, a, !a, a, a];
  }

  lemma MissedIsMissed(p: Pattern)
    requires !Restartable(p)
    ensures !Dout(false, p, Missed(p)) && Greedy(p, Missed(p))
  {
    if p[3] == p[2] {
      MissedInFive(p, p[3], p[0]);
    } else {
      MissedInSix(p, p[3]);
    }
  }

  /** Without overlap the detector finds exactly the matches a restart after each match would
      find, on every stream, if and only if the pattern is restartable: 1101 is missed in 11101. */
  lemma NonOverlapDetects(p: Pattern)
    ensures (forall w :: Dout(false, p, w) <==> Greedy(p, w)) <==> Restartable(p)
  {
    if Restartable(p) {
      forall w ensures Dout(false, p, w) <==> Greedy(p, w) {
        GreedyDetects(p, w);
      }
    } else {
      MissedIsMissed(p);
    }
  }

  // ----- the detector as an object

  class Detector {
    const overlap: bool
    var state: nat
    var dout: bool
    ghost var stream: seq<bool>

    /** The pattern has been p ever since the reset. */
    ghost predicate Watches(p: Pattern)
      reads this
    {
      state == State(overlap, p, stream)
    }

    constructor (overlap: bool)
      ensures this.overlap == overlap && stream == [] && !dout
      ensures forall p :: Watches(p)
    {
      this.overlap := overlap;
      state, dout, stream := 0, false, [];
    }

    /** One clock.  For whatever pattern has been held since the reset, dout marks its
        occurrences: all of them with overlap, and without it those that an attempt completes, which, if
        the pattern is restartable, are those a search finds that starts afresh after each. */
    method Clock(p: Pattern, din: bool)
      modifies this
      ensures stream == old(stream) + [din]
      ensures state == Next(overlap, p, old(state), din)
      ensures old(Watches(p)) ==> Watches(p) && (dout ==> Ends(p, stream, 4))
      ensures old(Watches(p)) && overlap ==> (dout <==> Ends(p, stream, 4))
      ensures old(Watches(p)) && !overlap ==> (dout <==> Completes(p, stream))
      ensures old(Watches(p)) && !overlap && Restartable(p) ==> (dout <==> Greedy(p, stream))
    {
      var nextState;
      var r := ReturnsFor(overlap, p, din);
      match state {
        case 1 => nextState := if din == p[2] then 2 else r.r1;
        case 2 => nextState := if din == p[1] then 3 else r.r2;
        case 3 => nextState := if din == p[0] then r.s3 else r.r3;
        case _ => nextState := if din == p[3] then 1 else 0;
      }
      dout := state == 3 && din == p[0];
      if state == State(overlap, p, stream) {
        DoutMarks(overlap, p, stream, din);
      }
      state := nextState;
      stream := stream + [din];
    }
  }

  lemma DoutMarks(overlap: bool, p: Pattern, w: seq<bool>, din: bool)
    ensures State(overlap, p, w + [din]) == Next(overlap, p, State(overlap, p, w), din)
    ensures var dout := Hit(p, State(overlap, p, w), din);
      && (dout ==> Ends(p, w + [din], 4))
      && (overlap ==> (dout <==> Ends(p, w + [din], 4)))
      && (!overlap ==> (dout <==> Completes(p, w + [din])))
      && (!overlap && Restartable(p) ==> (dout <==> Greedy(p, w + [din])))
  {
    assert (w + [din])[..|w|] == w;
    if overlap {
      OverlapDetects(p, w + [din]);
    } else {
      AttemptsDetected(p, w + [din]);
      if Dout(false, p, w + [din]) {
        PulsesAreMatches(p, w + [din]);
      }
      if Restartable(p) {
        GreedyDetects(p, w + [din]);
      }
    }
  }
}
