/** Answer lists and the arg-max rule that every scorer of the answer sheet
    uses: a running maximum that starts at 0 and is raised only by a strictly
    larger fill, so the leftmost of equal maxima wins and an all-zero row has
    no winner. */
module Answers {
  import opened Base

  /** One detected answer: `""` (unmarked) or one letter. */
  type Answer = string

  /** Alternatives per question, A to E. */
  const Alternatives := 5

  predicate IsAnswer(a: Answer) {
    a == "" || (|a| == 1 && 'A' <= a[0] <= 'E')
  }

  predicate AllAnswers(s: seq<Answer>) {
    forall i :: 0 <= i < |s| ==> IsAnswer(s[i])
  }

  /** `chr(65 + i)`: the letter of alternative `i`. */
  function Letter(i: nat): (a: Answer)
    requires i < Alternatives
    ensures IsAnswer(a) && a != ""
  {
    [(65 + i) as char]
  }

  lemma LetterInjective(i: nat, j: nat)
    requires i < Alternatives && j < Alternatives
    ensures Letter(i) == Letter(j) <==> i == j
  {
    if Letter(i) == Letter(j) {
      assert Letter(i)[0] == Letter(j)[0];
    }
  }

  /** `s.count('')`. */
  function Blanks(s: seq<Answer>): (k: nat)
    ensures k <= |s|
  {
    if s == [] then 0 else Blanks(s[..|s| - 1]) + (if s[|s| - 1] == "" then 1 else 0)
  }

  lemma {:induction false} BlanksAppend(s: seq<Answer>, t: seq<Answer>)
    ensures Blanks(s + t) == Blanks(s) + Blanks(t)
  {
    if t != [] {
      assert (s + t)[..|s + t| - 1] == s + t[..|t| - 1];
      BlanksAppend(s, t[..|t| - 1]);
    } else {
      assert s + t == s;
    }
  }

  /** `[''] * n`. */
  function NoAnswers(n: nat): (r: seq<Answer>)
    ensures |r| == n && AllAnswers(r)
    ensures forall i :: 0 <= i < n ==> r[i] == ""
  {
    seq(n, i => "")
  }

  lemma {:induction false} NoAnswersBlanks(n: nat)
    ensures Blanks(NoAnswers(n)) == n
  {
    if n > 0 {
      assert NoAnswers(n)[..n - 1] == NoAnswers(n - 1);
      NoAnswersBlanks(n - 1);
    }
  }

  /** `while len(s) < n: s.append('')`. */
  function PadTo(s: seq<Answer>, n: nat): (r: seq<Answer>)
    ensures |r| == if |s| < n then n else |s|
    ensures r[..|s|] == s
    ensures forall i :: |s| <= i < |r| ==> r[i] == ""
    ensures AllAnswers(s) ==> AllAnswers(r)
  {
    if |s| < n then s + NoAnswers(n - |s|) else s
  }

  /** The padding loop itself. */
  method PadAnswers(s: seq<Answer>, n: nat) returns (r: seq<Answer>)
    ensures r == PadTo(s, n)
  {
    r := s;
    while |r| < n
      invariant |s| <= |r| && r[..|s|] == s
      invariant forall i :: |s| <= i < |r| ==> r[i] == ""
      invariant |s| < n ==> |r| <= n
      invariant |s| >= n ==> r == s
      decreases n - |r|
    {
      r := r + [""];
    }
    if |s| < n {
      assert r == s + NoAnswers(n - |s|);
    } else {
      assert r == s;
    }
  }

  /** `s[:n]`. */
  function Take(s: seq<Answer>, n: nat): (r: seq<Answer>)
    ensures |r| == Min(|s|, n)
    ensures forall i :: 0 <= i < |r| ==> r[i] == s[i]
  {
    if |s| <= n then s else s[..n]
  }

  /** Padding and then cutting always yields exactly `n` entries, keeping
      the first ones of `s` and blank after them. */
  lemma ResizeExact(s: seq<Answer>, n: nat)
    ensures |Take(PadTo(s, n), n)| == n
    ensures forall i :: 0 <= i < n ==> Take(PadTo(s, n), n)[i] == if i < |s| then s[i] else ""
    ensures AllAnswers(s) ==> AllAnswers(Take(PadTo(s, n), n))
  {
    var r := Take(PadTo(s, n), n);
    forall i | 0 <= i < n ensures r[i] == if i < |s| then s[i] else "" {
      if i < |s| {
        assert PadTo(s, n)[..|s|][i] == s[i];
      }
    }
  }

  /** The running maximum of the fills, starting from 0. */
  function Peak(fills: seq<nat>): (m: nat)
    ensures forall i :: 0 <= i < |fills| ==> fills[i] <= m
    ensures m == 0 || exists i :: 0 <= i < |fills| && fills[i] == m
  {
    if fills == [] then 0
    else
      var p := Peak(fills[..|fills| - 1]);
      var x := fills[|fills| - 1];
      if x > p then x else p
  }

  /** The index held by the arg-max loop when it ends: the last position that
      raised the running maximum, or -1 if none did. */
  function ArgMax(fills: seq<nat>): (k: int)
    ensures -1 <= k < |fills|
  {
    if fills == [] then -1
    else
      var init := fills[..|fills| - 1];
      if fills[|fills| - 1] > Peak(init) then |fills| - 1 else ArgMax(init)
  }

  /** The arg-max loop finds the leftmost strict maximum: -1 exactly when all
      fills are 0, and otherwise a position holding the maximum whose every
      predecessor is strictly smaller. */
  lemma {:induction false} ArgMaxIsLeftmostMaximum(fills: seq<nat>)
    ensures ArgMax(fills) == -1 <==> (forall i :: 0 <= i < |fills| ==> fills[i] == 0)
    ensures ArgMax(fills) == -1 <==> Peak(fills) == 0
    ensures ArgMax(fills) >= 0 ==> fills[ArgMax(fills)] == Peak(fills) > 0
    ensures ArgMax(fills) >= 0 ==> forall j :: 0 <= j < ArgMax(fills) ==> fills[j] < Peak(fills)
  {
    if fills != [] {
      var init := fills[..|fills| - 1];
      ArgMaxIsLeftmostMaximum(init);
      assert forall i :: 0 <= i < |init| ==> init[i] == fills[i];
    }
  }

  /** The letter of the leftmost strict maximum if that maximum exceeds
      `floor`, otherwise unmarked: `if idx != -1 and max_filled > floor`. */
  function Pick(fills: seq<nat>, floor: nat): Answer
    requires |fills| <= Alternatives
  {
    var k := ArgMax(fills);
    if k != -1 && Peak(fills) > floor then Letter(k) else ""
  }

  /** A pick is a letter exactly when the largest fill is above the floor,
      and then it names the leftmost slot holding the largest fill. */
  lemma PickSpec(fills: seq<nat>, floor: nat)
    requires |fills| <= Alternatives
    ensures IsAnswer(Pick(fills, floor))
    ensures Pick(fills, floor) != "" <==> Peak(fills) > floor
    ensures Pick(fills, floor) != "" ==>
              0 <= ArgMax(fills) && Pick(fills, floor) == Letter(ArgMax(fills))
              && fills[ArgMax(fills)] == Peak(fills)
              && forall j :: 0 <= j < ArgMax(fills) ==> fills[j] < fills[ArgMax(fills)]
  {
    ArgMaxIsLeftmostMaximum(fills);
  }

  /** The pick in terms of the fills alone: a letter exactly when some slot
      is above the floor, naming the leftmost slot with the most ink. */
  lemma PickMeaning(fills: seq<nat>, floor: nat)
    requires |fills| <= Alternatives
    ensures IsAnswer(Pick(fills, floor))
    ensures Pick(fills, floor) != "" <==> exists j :: 0 <= j < |fills| && fills[j] > floor
    ensures Pick(fills, floor) != "" ==>
              exists j :: 0 <= j < |fills| && Pick(fills, floor) == Letter(j)
                && (forall i :: 0 <= i < |fills| ==> fills[i] <= fills[j])
                && (forall i :: 0 <= i < j ==> fills[i] < fills[j])
  {
    PickSpec(fills, floor);
    if Peak(fills) > floor {
      var j :| 0 <= j < |fills| && fills[j] == Peak(fills);
    }
  }

  /** A slot with strictly more ink than every other slot, above the floor,
      is the one picked. */
  lemma PickDominant(fills: seq<nat>, floor: nat, i: nat)
    requires |fills| <= Alternatives && i < |fills|
    requires fills[i] > floor
    requires forall j :: 0 <= j < |fills| && j != i ==> fills[j] < fills[i]
    ensures Pick(fills, floor) == Letter(i)
  {
    ArgMaxIsLeftmostMaximum(fills);
    var k := ArgMax(fills);
    assert fills[k] == Peak(fills) >= fills[i];
    assert k == i;
  }

  /** The arg-max loop `if filled > max_filled: max_filled, idx = filled, j`
      followed by the floor test. */
  method PickLetter(fills: seq<nat>, floor: nat) returns (a: Answer)
    requires |fills| <= Alternatives
    ensures a == Pick(fills, floor)
  {
    var maxFilled := 0;
    var answerIndex := -1;
    var j := 0;
    while j < |fills|
      invariant 0 <= j <= |fills|
      invariant maxFilled == Peak(fills[..j])
      invariant answerIndex == ArgMax(fills[..j])
    {
      assert fills[..j + 1][..j] == fills[..j];
      if fills[j] > maxFilled {
        maxFilled := fills[j];
        answerIndex := j;
      }
      j := j + 1;
    }
    assert fills[..j] == fills;
    if answerIndex != -1 && maxFilled > floor {
      a := Letter(answerIndex);
    } else {
      a := "";
    }
  }

  /** The variant of the loop that tests the floor inside the update,
      `if filled > max_filled and filled > floor`: it picks the same letter. */
  method PickLetterAbove(fills: seq<nat>, floor: nat) returns (a: Answer)
    requires |fills| <= Alternatives
    ensures a == Pick(fills, floor)
  {
    var maxFilled := 0;
    var answerIndex := -1;
    var j := 0;
    while j < |fills|
      invariant 0 <= j <= |fills|
      invariant Peak(fills[..j]) > floor ==>
                  maxFilled == Peak(fills[..j]) && answerIndex == ArgMax(fills[..j])
      invariant Peak(fills[..j]) <= floor ==> maxFilled == 0 && answerIndex == -1
    {
      assert fills[..j + 1][..j] == fills[..j];
      if fills[j] > maxFilled && fills[j] > floor {
        maxFilled := fills[j];
        answerIndex := j;
      }
      j := j + 1;
    }
    assert fills[..j] == fills;
    ArgMaxIsLeftmostMaximum(fills);
    if answerIndex != -1 {
      a := Letter(answerIndex);
    } else {
      a := "";
    }
  }
}
