/** Index arithmetic of the list selections: moving down and up with
    wraparound, and re-clamping after a deletion. */
module Cursor {
  import opened Wrappers

  /** Why a step cannot finish: `len - 1` on an empty list underflows an
      unsigned index, which stops a debug build with a panic. */
  datatype Fault = Underflow

  /** Moving the selection down in a list of `len` items: from nothing to the
      first item, from the last item (or past it) back to the first. */
  function Next(cursor: Option<nat>, len: nat): (r: Result<nat, Fault>)
    ensures r.Failure? <==> cursor.Some? && len == 0
    ensures cursor.None? ==> r == Success(0)
    ensures cursor.Some? && cursor.value < len ==> r == Success((cursor.value + 1) % len)
    ensures cursor.Some? && 0 < len <= cursor.value ==> r == Success(0)
  {
    match cursor
    case None => Success(0)
    case Some(i) =>
      if len == 0 then Failure(Underflow)
      else if i >= len - 1 then Success(0)
      else Success(i + 1)
  }

  /** Moving the selection up: from nothing to the first item, from the first
      item to the last. An index past the end just decreases. */
  function Previous(cursor: Option<nat>, len: nat): (r: Result<nat, Fault>)
    ensures r.Failure? <==> cursor == Some(0) && len == 0
    ensures cursor.None? ==> r == Success(0)
    ensures cursor.Some? && cursor.value < len ==> r == Success((cursor.value + len - 1) % len)
    ensures cursor.Some? && 0 < cursor.value ==> r == Success(cursor.value - 1)
  {
    match cursor
    case None => Success(0)
    case Some(i) =>
      if i == 0 then
        if len == 0 then Failure(Underflow)
        else
          ModBelow(len - 1, len);
          Success(len - 1)
      else
        StepBack(i, len);
        Success(i - 1)
  }

  /** Within bounds, going back one place with wraparound from a non-first item just decreases it. */
  lemma StepBack(i: nat, len: nat)
    requires 0 < i
    ensures i < len ==> (i + len - 1) % len == i - 1
  {
    if i < len {
      ModWrap(i - 1, len);
    }
  }

  /** A number below the modulus is its own remainder. */
  lemma ModBelow(a: int, len: int)
    requires 0 <= a < len
    ensures a % len == a
  {
  }

  /** Adding the modulus once does not change the remainder. */
  lemma ModWrap(a: int, len: int)
    requires 0 <= a < len
    ensures (a + len) % len == a
  {
    ModBelow(a, len);
  }

  /** Within bounds, moving down then up, or up then down, returns to the same item. */
  lemma NextPreviousInverse(i: nat, len: nat)
    requires i < len
    ensures Next(Some(i), len).Success? && Previous(Some(Next(Some(i), len).value), len) == Success(i)
    ensures Previous(Some(i), len).Success? && Next(Some(Previous(Some(i), len).value), len) == Success(i)
  {
  }

  /** The item reached from `i` after `n` moves down. */
  function StepsDown(i: nat, n: nat, len: nat): (j: nat)
    requires i < len
    ensures j < len
  {
    if n == 0 then i else Next(Some(StepsDown(i, n - 1, len)), len).value
  }

  /** The item reached from `i` after `n` moves up. */
  function StepsUp(i: nat, n: nat, len: nat): (j: nat)
    requires i < len
    ensures j < len
  {
    if n == 0 then i else Previous(Some(StepsUp(i, n - 1, len)), len).value
  }

  lemma {:induction false} DownStraight(i: nat, n: nat, len: nat)
    requires i + n < len
    ensures StepsDown(i, n, len) == i + n
  {
    if n > 0 {
      DownStraight(i, n - 1, len);
    }
  }

  lemma {:induction false} DownSplit(i: nat, m: nat, n: nat, len: nat)
    requires i < len
    ensures StepsDown(i, m + n, len) == StepsDown(StepsDown(i, m, len), n, len)
    decreases n
  {
    if n > 0 {
      DownSplit(i, m, n - 1, len);
    }
  }

  /** `len` moves down from any item come back to it. */
  lemma DownFullCircle(i: nat, len: nat)
    requires i < len
    ensures StepsDown(i, len, len) == i
  {
    var m := len - 1 - i;
    DownStraight(i, m, len);
    assert StepsDown(i, m + 1, len) == 0;
    DownSplit(i, m + 1, i, len);
    DownStraight(0, i, len);
  }

  lemma {:induction false} UpStraight(i: nat, n: nat, len: nat)
    requires n <= i < len
    ensures StepsUp(i, n, len) == i - n
  {
    if n > 0 {
      UpStraight(i, n - 1, len);
    }
  }

  lemma {:induction false} UpSplit(i: nat, m: nat, n: nat, len: nat)
    requires i < len
    ensures StepsUp(i, m + n, len) == StepsUp(StepsUp(i, m, len), n, len)
    decreases n
  {
    if n > 0 {
      UpSplit(i, m, n - 1, len);
    }
  }

  /** `len` moves up from any item come back to it. */
  lemma UpFullCircle(i: nat, len: nat)
    requires i < len
    ensures StepsUp(i, len, len) == i
  {
    UpStraight(i, i, len);
    assert StepsUp(i, i + 1, len) == len - 1;
    UpSplit(i, i + 1, len - 1 - i, len);
    UpStraight(len - 1, len - 1 - i, len);
  }

  /** The selection kept after a deletion shrank the list to `len` items: the
      old index when it is still in range, otherwise the last item. */
  function Clamp(i: nat, len: nat): (r: nat)
    requires len > 0
    ensures r < len && r <= i
    ensures r == i || r == len - 1
  {
    if i >= len then len - 1 else i
  }
}
