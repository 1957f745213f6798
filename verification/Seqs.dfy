/** Facts about sequences that the session and queue models share. */
module Seqs {

  function Last<T>(s: seq<T>): T
    requires s != []
  {
    s[|s| - 1]
  }

  function Front<T>(s: seq<T>): seq<T>
    requires s != []
  {
    s[..|s| - 1]
  }

  /** `part` is obtained from `whole` by deleting elements. */
  ghost predicate Subsequence<T>(part: seq<T>, whole: seq<T>) {
    part == [] ||
    (whole != [] &&
     ((Last(part) == Last(whole) && Subsequence(Front(part), Front(whole))) ||
      Subsequence(part, Front(whole))))
  }

  lemma SubsequenceSkip<T>(part: seq<T>, whole: seq<T>, x: T)
    requires Subsequence(part, whole)
    ensures Subsequence(part, whole + [x])
  {
    assert Front(whole + [x]) == whole;
  }

  lemma SubsequenceTake<T>(part: seq<T>, whole: seq<T>, x: T)
    requires Subsequence(part, whole)
    ensures Subsequence(part + [x], whole + [x])
  {
    assert Front(part + [x]) == part && Front(whole + [x]) == whole;
  }

  lemma {:induction false} SubsequenceDropLast<T>(part: seq<T>, whole: seq<T>)
    requires part != [] && Subsequence(part, whole)
    ensures Subsequence(Front(part), whole)
    decreases |whole|
  {
    var rest := Front(whole);
    if Last(part) == Last(whole) && Subsequence(Front(part), rest) {
      SubsequenceSkip(Front(part), rest, Last(whole));
    } else {
      SubsequenceDropLast(part, rest);
      SubsequenceSkip(Front(part), rest, Last(whole));
    }
    assert rest + [Last(whole)] == whole;
  }

  lemma {:induction false} SubsequenceMembers<T>(part: seq<T>, whole: seq<T>)
    requires Subsequence(part, whole)
    ensures forall x :: x in part ==> x in whole
    decreases |whole|
  {
    if part != [] {
      if Last(part) == Last(whole) && Subsequence(Front(part), Front(whole)) {
        SubsequenceMembers(Front(part), Front(whole));
        assert part == Front(part) + [Last(part)];
      } else {
        SubsequenceMembers(part, Front(whole));
      }
    }
  }

  /** Adjacent repeats removed. */
  function Squeeze<T(==)>(s: seq<T>): (r: seq<T>)
    ensures |r| <= |s| && (s != [] ==> r != [] && Last(r) == Last(s))
  {
    if |s| <= 1 then s
    else if Last(s) == Last(Front(s)) then Squeeze(Front(s))
    else Squeeze(Front(s)) + [Last(s)]
  }

  lemma SqueezeAppend<T>(s: seq<T>, x: T)
    ensures Squeeze(s + [x]) ==
            if s != [] && Last(s) == x then Squeeze(s) else Squeeze(s) + [x]
  {
    assert Front(s + [x]) == s;
  }
}
