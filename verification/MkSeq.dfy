/** The entries of a sequence expression {start..end..incr}. */
module MkSeq {
  import opened Int64
  import opened Options

  predicate AddOverflow(a: int, b: int, minv: int, maxv: int)
  {
    (a > 0 && b > maxv - a) || (a < 0 && b < minv - a)
  }

  predicate SubOverflow(a: int, b: int, minv: int, maxv: int)
  {
    (b > 0 && a < minv + b) || (b < 0 && a > maxv + b)
  }

  /** sh_imaxabs: negating INTMAX_MIN wraps back to it. */
  function ImaxAbs(x: intmax): intmax { if x >= 0 then x else Wrap(0 - x) }

  /** The increment with the sign that leads from start to end; None when it has no negative. */
  function Corrected(start: intmax, end: intmax, incr: intmax): (r: Option<intmax>)
    ensures r.Some? ==> r.value != 0 && (start < end ==> r.value > 0) && (start > end ==> r.value < 0)
    ensures r.Some? ==> Abs(r.value) == if incr == 0 then 1 else Abs(incr)
  {
    var step: intmax := if incr == 0 then 1 else incr;
    if start > end && step > 0 then Some(0 - step)
    else if start < end && step < 0 then (if step == INTMAX_MIN then None else Some(0 - step))
    else Some(step)
  }

  /** The number of entries mkseq makes room for; None when a range check fails. */
  function Room(start: intmax, end: intmax, step: intmax): Option<int>
    requires step != 0
  {
    if SubOverflow(end, start, INTMAX_MIN + 3, INTMAX_MAX - 2) then None
    else
      var prevn := ImaxAbs(Wrap(end - start));
      var q := Quot(prevn, ImaxAbs(step));
      if AddOverflow(q, 1, INTMAX_MIN, INTMAX_MAX) || q > INT_MAX - 3 then None else Some(ToInt(q + 1))
  }

  /** The number of terms from start to end. */
  function Terms(start: int, end: int, step: int): (n: nat)
    requires step != 0
    ensures n > 0
  {
    Abs(end - start) / Abs(step) + 1
  }

  /** The one distance the range checks let through although it has no 64-bit absolute value. */
  predicate Unmeasured(start: intmax, end: intmax, step: intmax)
  {
    start == 0 && end == INTMAX_MIN && step != INTMAX_MIN
  }

  /** Whenever the range checks pass, the room made is the number of terms, except at
      exactly one distance: from 0 to INTMAX_MIN. */
  lemma RoomIsExact(start: intmax, end: intmax, step: intmax)
    requires step != 0 && (start < end ==> step > 0) && (start > end ==> step < 0)
    requires Room(start, end, step).Some?
    ensures Room(start, end, step) == Some(Terms(start, end, step)) <==> !Unmeasured(start, end, step)
  {
    var d := end - start;
    if start == 0 && end == INTMAX_MIN {
      LongestDistance(step);
    } else {
      assert INTMAX_MIN < d <= INTMAX_MAX;
      WrapId(d);
      AbsIs(d);
      if step == INTMAX_MIN {
        WholeAway(Abs(d));
      } else {
        AbsIs(step);
      }
    }
  }

  lemma AbsIs(x: intmax)
    requires x != INTMAX_MIN
    ensures ImaxAbs(x) == Abs(x)
  {
    WrapId(Abs(x));
  }

  lemma AbsOfLeast()
    ensures ImaxAbs(INTMAX_MIN) == INTMAX_MIN
  {
    WrapUnique(0 - INTMAX_MIN, INTMAX_MIN, 1);
  }

  lemma WholeAway(d: nat)
    requires d <= INTMAX_MAX
    ensures Quot(d, ImaxAbs(INTMAX_MIN)) == 0 == d / Abs(INTMAX_MIN)
  {
    AbsOfLeast();
  }

  lemma LongestDistance(step: intmax)
    requires step < 0
    ensures Room(0, INTMAX_MIN, step).Some?
    ensures Room(0, INTMAX_MIN, step) != Some(Terms(0, INTMAX_MIN, step)) <==> step != INTMAX_MIN
  {
    AbsOfLeast();
    WrapId(INTMAX_MIN);
    if step != INTMAX_MIN {
      AbsIs(step);
      var k := Abs(step);
      var q: int := 0x8000_0000_0000_0000 / k;
      assert q >= 1;
      assert Quot(INTMAX_MIN, k) == -q;
      NeverAlike(q);
    }
  }

  lemma NeverAlike(q: int)
    requires q >= 1
    ensures ToInt(0 - q + 1) != q + 1
  {
  }

  // ----- filling the vector -----

  predicate Past(n: int, end: int, step: int) { (step < 0 && n < end) || (step > 0 && n > end) }

  /** Term k is past the end exactly when there are no more than k terms. */
  lemma PastIffCounted(start: int, end: int, step: int, k: nat)
    requires step != 0 && (start < end ==> step > 0) && (start > end ==> step < 0)
    ensures Past(start + k * step, end, step) <==> k >= Terms(start, end, step)
  {
    var m := Abs(step);
    Exceeds(k, m, Abs(end - start));
    if step < 0 {
      Negated(k, step);
    }
  }

  lemma Exceeds(k: nat, m: nat, d: nat)
    requires m > 0
    ensures k * m > d <==> k > d / m
  {
    if k > d / m {
      MulMonotone(m, d / m + 1, k);
    } else {
      MulMonotone(m, k, d / m);
    }
  }

  lemma Negated(k: int, step: int)
    ensures k * step == 0 - k * (0 - step)
  {
  }

  /** A term of 64-bit range never passes the addition test wrongly, and one that fails it
      lies past every end. */
  lemma AddTestIsExact(n: intmax, step: intmax)
    requires step != 0
    ensures AddOverflow(n, step, INTMAX_MIN, INTMAX_MAX) <==> !(INTMAX_MIN <= n + step <= INTMAX_MAX)
    ensures AddOverflow(n, step, INTMAX_MIN, INTMAX_MAX) ==>
      forall end: intmax {:trigger Past(n + step, end, step)} :: Past(n + step, end, step)
  {
  }

  /** The loop of mkseq: the vector is filled exactly, every term is written, none past the end. */
  method Fill(start: intmax, end: intmax, step: intmax, show: intmax -> string, result: array<Option<string>>)
    requires step != 0 && (start < end ==> step > 0) && (start > end ==> step < 0)
    requires result.Length == Terms(start, end, step) + 1
    modifies result
    ensures forall k :: 0 <= k < Terms(start, end, step) ==>
      INTMAX_MIN <= start + k * step <= INTMAX_MAX && result[k] == Some(show(start + k * step))
    ensures result[Terms(start, end, step)] == None
  {
    hide Terms;
    var i: nat, n: intmax := 0, start;
    PastIffCounted(start, end, step, 0);
    while true
      invariant i < result.Length - 1 && n == start + i * step
      invariant forall k :: 0 <= k < i ==>
        INTMAX_MIN <= start + k * step <= INTMAX_MAX && result[k] == Some(show(start + k * step))
      decreases result.Length - i
    {
      result[i] := Some(show(n));
      i := i + 1;
      AddTestIsExact(n, step);
      PastIffCounted(start, end, step, i);
      assert start + i * step == n + step;
      if AddOverflow(n, step, INTMAX_MIN, INTMAX_MAX) {
        break;
      }
      n := n + step;
      if (step < 0 && n < end) || (step > 0 && n > end) {
        break;
      }
    }
    result[i] := None;
  }

  /** What mkseq comes to: no vector, a filled vector, or a vector whose length is not the
      number of terms, which the loop would leave. */
  datatype Made = NoVector | Filled(result: array<Option<string>>) | Overrun

  /** mkseq, for every start, end and increment. */
  method MkSeq(start: intmax, end: intmax, incr: intmax, show: intmax -> string) returns (made: Made)
    ensures made.NoVector? <==> (Corrected(start, end, incr).None? || Room(start, end, Corrected(start, end, incr).value).None?)
    ensures made.Overrun? <==> (start == 0 && end == INTMAX_MIN && incr != INTMAX_MIN)
    ensures made.Filled? ==>
      var step, result := Corrected(start, end, incr).value, made.result;
      && fresh(result) && result.Length == Terms(start, end, step) + 1
      && (forall k :: 0 <= k < result.Length - 1 ==>
            INTMAX_MIN <= start + k * step <= INTMAX_MAX && result[k] == Some(show(start + k * step)))
      && result[result.Length - 1] == None
  {
    hide Room, Terms;
    var corrected := Corrected(start, end, incr);
    if corrected.None? {
      return NoVector;
    }
    var room := Room(start, end, corrected.value);
    if start == 0 && end == INTMAX_MIN {
      LongestDistance(corrected.value);
    }
    if room.None? {
      return NoVector;
    }
    RoomIsExact(start, end, corrected.value);
    if room.value != Terms(start, end, corrected.value) {
      return Overrun;
    }
    var result := new Option<string>[room.value + 1];
    Fill(start, end, corrected.value, show, result);
    return Filled(result);
  }
}
