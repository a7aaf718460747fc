/**
 * Rust's `str::split("::")`: the pieces between successive non-overlapping
 * occurrences of `::`, found from left to right. A string without a
 * separator is one piece, so the result is never empty.
 */
module StrSplit {
  import opened Common

  /** A `::` starts at index `i` of `s`. */
  predicate SeparatorAt(s: string, i: int)
  {
    0 <= i && i + 1 < |s| && s[i] == ':' && s[i + 1] == ':'
  }

  predicate HasSeparator(s: string)
  {
    exists i | 0 <= i < |s| :: SeparatorAt(s, i)
  }

  predicate EndsWithColon(s: string)
  {
    |s| > 0 && s[|s| - 1] == ':'
  }

  /** The first `::` at or after `from`. */
  function FirstSeparator(s: string, from: nat): (r: Option<nat>)
    requires from <= |s|
    ensures r.Some? ==> from <= r.value && SeparatorAt(s, r.value)
                        && forall i | from <= i < r.value :: !SeparatorAt(s, i)
    ensures r.None? ==> forall i | from <= i < |s| :: !SeparatorAt(s, i)
    decreases |s| - from
  {
    if from + 1 >= |s| then None
    else if s[from] == ':' && s[from + 1] == ':' then Some(from)
    else FirstSeparator(s, from + 1)
  }

  /** The pieces of `s` between separators, left to right. */
  function Split(s: string): (pieces: seq<string>)
    ensures |pieces| >= 1
    ensures !HasSeparator(s) ==> pieces == [s]
    ensures HasSeparator(s) ==>
              |pieces[0]| + 2 <= |s| && s[..|pieces[0]| + 2] == pieces[0] + "::"
              && SeparatorAt(s, |pieces[0]|) && forall i | 0 <= i < |pieces[0]| :: !SeparatorAt(s, i)
    decreases |s|
  {
    match FirstSeparator(s, 0)
    case None => [s]
    case Some(i) => [s[..i]] + Split(s[i + 2..])
  }

  /** The inverse of `Split`: the pieces glued back together with `::`. */
  function Join(pieces: seq<string>): string
    requires |pieces| >= 1
  {
    if |pieces| == 1 then pieces[0] else pieces[0] + "::" + Join(pieces[1..])
  }

  /** What `Split` can return: no piece holds `::`, and no piece but the last ends with `:`. */
  predicate WellFormed(pieces: seq<string>)
  {
    |pieces| >= 1
    && (forall k | 0 <= k < |pieces| :: !HasSeparator(pieces[k]))
    && (forall k | 0 <= k < |pieces| - 1 :: !EndsWithColon(pieces[k]))
  }

  /** Splitting loses nothing: gluing the pieces back gives the input. */
  lemma {:induction false} JoinSplit(s: string)
    ensures Join(Split(s)) == s
    decreases |s|
  {
    match FirstSeparator(s, 0)
    case None =>
    case Some(i) =>
      JoinSplit(s[i + 2..]);
      assert Split(s) == [s[..i]] + Split(s[i + 2..]);
      assert s == s[..i] + "::" + s[i + 2..];
  }

  /** The text before the first separator holds no separator and does not end with `:`. */
  lemma HeadBeforeSeparator(s: string, i: nat)
    requires i <= |s| && forall j | 0 <= j < i :: !SeparatorAt(s, j)
    requires i < |s| ==> s[i] == ':'
    ensures !HasSeparator(s[..i]) && (i < |s| ==> !EndsWithColon(s[..i]))
  {
    var head := s[..i];
    forall j | 0 <= j < |head|
      ensures !SeparatorAt(head, j)
    {
      assert !SeparatorAt(s, j);
    }
    if i < |s| && EndsWithColon(head) {
      assert SeparatorAt(s, i - 1);
    }
  }

  lemma ConsWellFormed(head: string, tail: seq<string>)
    requires !HasSeparator(head) && !EndsWithColon(head) && WellFormed(tail)
    ensures WellFormed([head] + tail)
  {
    var pieces := [head] + tail;
    forall k | 0 <= k < |pieces|
      ensures !HasSeparator(pieces[k]) && (k < |pieces| - 1 ==> !EndsWithColon(pieces[k]))
    {
      if k > 0 { assert pieces[k] == tail[k - 1]; }
    }
  }

  /** Every result of `Split` is well formed. */
  lemma {:induction false} SplitWellFormed(s: string)
    ensures WellFormed(Split(s))
    decreases |s|
  {
    match FirstSeparator(s, 0)
    case None =>
      HeadBeforeSeparator(s, |s|);
      assert s[..|s|] == s;
    case Some(i) =>
      HeadBeforeSeparator(s, i);
      SplitWellFormed(s[i + 2..]);
      ConsWellFormed(s[..i], Split(s[i + 2..]));
  }

  /** On well-formed pieces `Split` undoes `Join`, so the two are inverses. */
  lemma {:induction false} SplitJoin(pieces: seq<string>)
    requires WellFormed(pieces)
    ensures Split(Join(pieces)) == pieces
    decreases |pieces|
  {
    var head := pieces[0];
    var s := Join(pieces);
    if |pieces| == 1 {
      assert !HasSeparator(head);
    } else {
      var rest := Join(pieces[1..]);
      assert s == head + "::" + rest;
      assert SeparatorAt(s, |head|);
      forall i | 0 <= i < |head|
        ensures !SeparatorAt(s, i)
      {
        if i + 1 < |head| {
          assert !SeparatorAt(head, i);
        } else {
          assert !EndsWithColon(head);
        }
      }
      var first := FirstSeparator(s, 0);
      assert first == Some(|head|);
      assert s[..|head|] == head && s[|head| + 2..] == rest;
      assert WellFormed(pieces[1..]);
      SplitJoin(pieces[1..]);
      assert pieces == [head] + pieces[1..];
    }
  }
}
