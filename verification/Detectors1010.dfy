/** The three hand-made detectors of 1010 (modules/sequence.v:96-177) against each other and
    against the general one. */
module Detectors1010 {
  import Sequence

  /** 4'b1010. */
  const PASS: Sequence.Pattern := [false, true, false, true]

  // ----- sequence_detector_1010: the output is combinational

  function BasicNext(state: nat, din: bool): nat {
    match state
    case 1 => if din == PASS[2] then 2 else 1
    case 2 => if din == PASS[1] then 3 else 0
    case 3 => if din == PASS[0] then 2 else 1
    case _ => if din == PASS[3] then 1 else 0
  }

  predicate BasicOut(state: nat, din: bool) { state == 3 && din == PASS[0] }

  function Basic(w: seq<bool>): nat {
    if w == [] then 0 else BasicNext(Basic(w[..|w| - 1]), w[|w| - 1])
  }

  // ----- sequence_detector_1010_mealy: two flip-flops and a registered output

  datatype Mealy = Mealy(s1: bool, s2: bool, dout: bool)

  function MealyNext(m: Mealy, din: bool): Mealy {
    Mealy(din, (din && m.s2 && !m.s1) || (!din && m.s1), !din && m.s2 && m.s1)
  }

  function MealyAfter(w: seq<bool>): Mealy {
    if w == [] then Mealy(false, false, false) else MealyNext(MealyAfter(w[..|w| - 1]), w[|w| - 1])
  }

  // ----- sequence_detector_1010_moore: the output is a flip-flop of the state

  datatype Moore = Moore(s1: bool, s2: bool, s3: bool)

  function MooreNext(m: Moore, din: bool): Moore {
    Moore(din, (!din && m.s1) || (din && !m.s1 && (m.s2 || m.s3)), !din && m.s1 && m.s2)
  }

  function MooreAfter(w: seq<bool>): Moore {
    if w == [] then Moore(false, false, false) else MooreNext(MooreAfter(w[..|w| - 1]), w[|w| - 1])
  }

  // ----- the same machine in four encodings

  /** The state of the general detector that a pair of flip-flops stands for. */
  function Code(s1: bool, s2: bool): nat {
    if s1 then (if s2 then 3 else 1) else if s2 then 2 else 0
  }

  /** After any stream the four detectors are in the same state, and the Moore output repeats the
      Mealy output. */
  lemma {:induction false} SameStates(w: seq<bool>)
    ensures var s, m, n := Sequence.State(true, PASS, w), MealyAfter(w), MooreAfter(w);
      && s == Basic(w) == Code(m.s1, m.s2) == Code(n.s1, n.s2)
      && m.dout == n.s3 && (n.s3 ==> n.s2 && !n.s1)
  {
    if w != [] {
      SameStates(w[..|w| - 1]);
    }
  }

  /** On every stream the four agree: the combinational output during an input is the registered
      output after it, and both say that 1010 has just been completed. */
  lemma DetectorsAgree(w: seq<bool>, din: bool)
    ensures var out := BasicOut(Basic(w), din);
      && out == Sequence.Dout(true, PASS, w + [din])
      && out == MealyAfter(w + [din]).dout
      && out == MooreAfter(w + [din]).s3
      && (out <==> Sequence.Ends(PASS, w + [din], 4))
  {
    assert (w + [din])[..|w|] == w;
    SameStates(w);
    Sequence.OverlapDetects(PASS, w + [din]);
  }

  // ----- the two flip-flop machines as objects

  class MealyDetector {
    var s1: bool
    var s2: bool
    var dout: bool
    ghost var stream: seq<bool>

    ghost predicate Valid()
      reads this
    {
      MealyAfter(stream) == Mealy(s1, s2, dout)
    }

    constructor ()
      ensures Valid() && stream == []
    {
      s1, s2, dout, stream := false, false, false, [];
    }

    method Clock(din: bool)
      requires Valid()
      modifies this
      ensures Valid() && stream == old(stream) + [din] && (dout <==> Sequence.Ends(PASS, stream, 4))
    {
      DetectorsAgree(stream, din);
      assert (stream + [din])[..|stream|] == stream;
      s1, s2, dout := din, (din && s2 && !s1) || (!din && s1), !din && s2 && s1;
      stream := stream + [din];
    }
  }

  class MooreDetector {
    var s1: bool
    var s2: bool
    var s3: bool
    ghost var stream: seq<bool>

    ghost predicate Valid()
      reads this
    {
      MooreAfter(stream) == Moore(s1, s2, s3)
    }

    constructor ()
      ensures Valid() && stream == []
    {
      s1, s2, s3, stream := false, false, false, [];
    }

    method Clock(din: bool)
      requires Valid()
      modifies this
      ensures Valid() && stream == old(stream) + [din] && (s3 <==> Sequence.Ends(PASS, stream, 4))
    {
      DetectorsAgree(stream, din);
      assert (stream + [din])[..|stream|] == stream;
      s1, s2, s3 := din, (!din && s1) || (din && !s1 && (s2 || s3)), !din && s1 && s2;
      stream := stream + [din];
    }
  }
}
