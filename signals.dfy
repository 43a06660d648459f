/** The `signals` column: free-text evidence tokens joined with ", ", and the derived
    `signals_count` (app.py line 14). */
module Signals {
  import opened Wrappers

  /** The token separator of the `signals` column. */
  const Separator: string := ", "

  /** The separator starts at position `i` of `s`. */
  predicate SeparatorAt(s: string, i: int)
  {
    0 <= i && i + 1 < |s| && s[i] == ',' && s[i + 1] == ' '
  }

  /** `t` contains no separator, so it can stand as one token. */
  predicate SeparatorFree(t: string)
  {
    forall i :: 0 <= i < |t| ==> !SeparatorAt(t, i)
  }

  /** Python's `s.split(", ")`: the pieces between the separator occurrences found
      left to right without overlap. Never empty: `"".split(", ") == [""]`. */
  function Split(s: string): (parts: seq<string>)
    ensures |parts| >= 1
    ensures parts[0] <= s
    decreases |s|
  {
    if SeparatorAt(s, 0) then [""] + Split(s[2..])
    else if s == [] then [""]
    else
      var rest := Split(s[1..]);
      [[s[0]] + rest[0]] + rest[1..]
  }

  /** `", ".join(parts)`. */
  function Join(parts: seq<string>): string
    requires |parts| >= 1
  {
    if |parts| == 1 then parts[0] else parts[0] + Separator + Join(parts[1..])
  }

  /** The number of non-empty pieces: `len([x for x in parts if x])`. */
  function CountNonEmpty(parts: seq<string>): (n: nat)
    ensures n <= |parts|
  {
    if parts == [] then 0 else (if parts[0] == "" then 0 else 1) + CountNonEmpty(parts[1..])
  }

  /** The derived `signals_count` of a `signals` cell; a missing cell counts as "". */
  function SignalsCount(signals: Option<string>): nat
  {
    CountNonEmpty(Split(signals.GetOr("")))
  }

  /** Every piece Split produces is separator-free. */
  lemma {:induction false} SplitPiecesSeparatorFree(s: string)
    ensures forall k :: 0 <= k < |Split(s)| ==> SeparatorFree(Split(s)[k])
    decreases |s|
  {
    if SeparatorAt(s, 0) {
      SplitPiecesSeparatorFree(s[2..]);
      assert Split(s)[1..] == Split(s[2..]);
    } else if s != [] {
      var rest := Split(s[1..]);
      SplitPiecesSeparatorFree(s[1..]);
      var first := [s[0]] + rest[0];
      forall i | 0 <= i < |first| ensures !SeparatorAt(first, i) {
        if i == 0 && |first| > 1 {
          assert first[1] == rest[0][0] == s[1];
        } else if i > 0 {
          assert !SeparatorAt(rest[0], i - 1);
        }
      }
      assert Split(s)[1..] == rest[1..];
    }
  }

  /** Joining the pieces of a split gives back the original text. */
  lemma {:induction false} JoinSplit(s: string)
    ensures Join(Split(s)) == s
    decreases |s|
  {
    if SeparatorAt(s, 0) {
      JoinSplit(s[2..]);
      assert s == Separator + s[2..];
    } else if s != [] {
      var rest := Split(s[1..]);
      JoinSplit(s[1..]);
      if |rest| > 1 {
        assert Join(rest) == rest[0] + Separator + Join(rest[1..]);
      }
      assert s == [s[0]] + s[1..];
    }
  }

  /** A separator-free text splits into itself alone. */
  lemma {:induction false} SplitSinglePiece(t: string)
    requires SeparatorFree(t)
    ensures Split(t) == [t]
    decreases |t|
  {
    if t != [] {
      assert !SeparatorAt(t, 0);
      assert SeparatorFree(t[1..]) by {
        forall i | 0 <= i < |t[1..]| ensures !SeparatorAt(t[1..], i) {
          assert !SeparatorAt(t, i + 1);
        }
      }
      SplitSinglePiece(t[1..]);
      assert t == [t[0]] + t[1..];
    }
  }

  /** A separator-free token followed by the separator is split off as the first piece. */
  lemma {:induction false} SplitAfterPiece(t: string, rest: string)
    requires SeparatorFree(t)
    ensures Split(t + Separator + rest) == [t] + Split(rest)
    decreases |t|
  {
    var s := t + Separator + rest;
    if t == [] {
      assert s == Separator + rest && s[2..] == rest;
    } else {
      assert s[1..] == t[1..] + Separator + rest;
      if |t| > 1 {
        assert !SeparatorAt(t, 0);
        assert s[1] == t[1];
      }
      assert !SeparatorAt(s, 0);
      assert SeparatorFree(t[1..]) by {
        forall i | 0 <= i < |t[1..]| ensures !SeparatorAt(t[1..], i) {
          assert !SeparatorAt(t, i + 1);
        }
      }
      SplitAfterPiece(t[1..], rest);
      assert [t[0]] + t[1..] == t;
    }
  }

  /** Splitting a join of separator-free tokens gives the tokens back. */
  lemma {:induction false} SplitJoin(parts: seq<string>)
    requires |parts| >= 1
    requires forall k :: 0 <= k < |parts| ==> SeparatorFree(parts[k])
    ensures Split(Join(parts)) == parts
    decreases |parts|
  {
    if |parts| == 1 {
      SplitSinglePiece(parts[0]);
    } else {
      SplitJoin(parts[1..]);
      SplitAfterPiece(parts[0], Join(parts[1..]));
      assert parts == [parts[0]] + parts[1..];
    }
  }

  /** `signals_count` of a cell written as ", "-joined tokens is the number of non-empty tokens. */
  lemma SignalsCountOfJoin(parts: seq<string>)
    requires |parts| >= 1
    requires forall k :: 0 <= k < |parts| ==> SeparatorFree(parts[k])
    ensures SignalsCount(Some(Join(parts))) == CountNonEmpty(parts)
  {
    SplitJoin(parts);
  }

  /** A missing or empty cell has no signals; a non-empty separator-free cell has exactly one. */
  lemma SignalsCountBaseCases(t: string)
    requires SeparatorFree(t)
    ensures SignalsCount(None) == 0 && SignalsCount(Some("")) == 0
    ensures t != "" ==> SignalsCount(Some(t)) == 1
  {
    SplitSinglePiece(t);
  }
}
