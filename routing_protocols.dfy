/** The OSPF link cost of intra-AS-simulation/routing_protocols.py (`OSPF.calc_cost`). */
module RoutingProtocols {
  import opened Wrappers
  import opened Text

  const MaxCost := 65535
  const BaseCost := 10

  /** The Mininet link parameters the cost reads: `bw` as an integer, `delay` and `jitter`
      as text such as "5ms", `loss` as a number. */
  datatype LinkParams = LinkParams(bw: Option<int>, delay: Option<string>, loss: Option<real>, jitter: Option<string>)

  /** The exceptions `calc_cost` raises: `1000/bw` with bw 0, and `int()` on a delay or
      jitter whose text before "ms" is not an integer. */
  datatype CostError = ZeroBandwidth | BadDelay(delay: string) | BadJitter(jitter: string)

  /** Python's `int(a / b)` for integers: the quotient rounded toward zero. */
  function TruncDiv(a: int, b: int): int
    requires b != 0
  {
    if (a >= 0) == (b > 0) then Abs(a) / Abs(b) else -(Abs(a) / Abs(b))
  }

  function Abs(x: int): nat { if x < 0 then -x else x }

  /** Python's `int(x)` for a float: truncation toward zero. */
  function Trunc(x: real): int {
    if x >= 0.0 then x.Floor else -((-x).Floor)
  }

  /** The integer before the first "ms" (`int(s.split('ms')[0])`). */
  function Millis(s: string): Option<int> {
    ParseInt(Split(s, "ms")[0])
  }

  /** The bandwidth term: `int(1000/bw)` for a bandwidth below 100, else nothing. */
  function BandwidthTerm(bw: Option<int>): int
    requires bw != Some(0)
  {
    if bw.Some? && bw.value < 100 then TruncDiv(1000, bw.value) else 0
  }

  function LossTerm(loss: Option<real>): int {
    if loss.Some? then Trunc(10.0 * loss.value) else 0
  }

  /** A delay or jitter term; absent contributes nothing. */
  function MillisTerm(s: Option<string>): int
    requires s.Some? ==> Millis(s.value).Some?
  {
    if s.Some? then Millis(s.value).value else 0
  }

  /** The cost as the capped sum of its independent terms, or the first error. */
  function Cost(p: LinkParams): Result<int, CostError> {
    if p.bw == Some(0) then Err(ZeroBandwidth)
    else if p.delay.Some? && Millis(p.delay.value).None? then Err(BadDelay(p.delay.value))
    else if p.jitter.Some? && Millis(p.jitter.value).None? then Err(BadJitter(p.jitter.value))
    else Ok(Min(BaseCost + BandwidthTerm(p.bw) + MillisTerm(p.delay) + LossTerm(p.loss) + MillisTerm(p.jitter), MaxCost))
  }

  function Min(a: int, b: int): int { if a <= b then a else b }

  /** `OSPF.calc_cost` (routing_protocols.py:122-151): the cost is built up by `+=` steps
      and capped at 65535. */
  method CalcCost(p: LinkParams) returns (r: Result<int, CostError>)
    ensures r == Cost(p)
    ensures r.Ok? ==> r.value <= MaxCost
  {
    var cost := BaseCost;
    if p.bw.Some? {
      var bw := p.bw.value;
      if bw < 100 {
        if bw == 0 {
          return Err(ZeroBandwidth);
        }
        cost := cost + TruncDiv(1000, bw);
      }
    }
    if p.delay.Some? {
      var rawDelay := Split(p.delay.value, "ms")[0];
      var realDelay := ParseInt(rawDelay);
      if realDelay.None? {
        return Err(BadDelay(p.delay.value));
      }
      cost := cost + realDelay.value;
    }
    if p.loss.Some? {
      cost := cost + Trunc(10.0 * p.loss.value);
    }
    if p.jitter.Some? {
      var rawJitter := Split(p.jitter.value, "ms")[0];
      var realJitter := ParseInt(rawJitter);
      if realJitter.None? {
        return Err(BadJitter(p.jitter.value));
      }
      cost := cost + realJitter.value;
    }
    return Ok(Min(cost, MaxCost));
  }

  /** With no parameter the cost is the base cost 10. */
  lemma NoParamsCost()
    ensures Cost(LinkParams(None, None, None, None)) == Ok(BaseCost)
  {
  }

  /** A bandwidth of 100 or more costs nothing extra. */
  lemma HighBandwidthFree(p: LinkParams, bw: int)
    requires bw >= 100
    ensures Cost(p.(bw := Some(bw))) == Cost(p.(bw := None))
  {
  }

  /** A bandwidth below 100 but positive adds its integer quotient of 1000. */
  lemma LowBandwidthTerm(bw: int)
    requires 0 < bw < 100
    ensures BandwidthTerm(Some(bw)) == 1000 / bw && BandwidthTerm(Some(bw)) >= 10
  {
  }

  /** A loss adds ten times its percentage, truncated toward zero. */
  lemma LossTruncated(loss: real)
    requires loss >= 0.0
    ensures LossTerm(Some(loss)) as real <= 10.0 * loss < LossTerm(Some(loss)) as real + 1.0
  {
  }

  lemma {:induction false} SplitBeforeSuffix(s: string)
    requires forall i :: 0 <= i < |s| ==> s[i] != 'm'
    ensures Split(s + "ms", "ms")[0] == s
    decreases |s|
  {
    var t := s + "ms";
    if s == [] {
      assert t[..2] == "ms";
    } else {
      assert t[..2] != "ms" by {
        assert t[0] == s[0];
      }
      assert t[1..] == s[1..] + "ms";
      SplitBeforeSuffix(s[1..]);
    }
  }

  /** The text `f'{d}ms'` that the topology builder produces reads back as `d`. */
  lemma MillisOfFormatted(d: int)
    ensures Millis(IntToString(d) + "ms") == Some(d)
  {
    var s := IntToString(d);
    assert forall i :: 0 <= i < |s| ==> s[i] != 'm' by {
      if d >= 0 {
        assert AllDigits(s);
      } else {
        assert AllDigits(s[1..]);
        forall i | 0 <= i < |s| ensures s[i] != 'm' {
          if i > 0 {
            assert s[i] == s[1..][i - 1];
          }
        }
      }
    }
    SplitBeforeSuffix(s);
    ParseIntToString(d);
  }

  /** A larger delay never lowers the cost. */
  lemma MonotoneInDelay(p: LinkParams, d1: int, d2: int)
    requires d1 <= d2
    requires Cost(p.(delay := Some(IntToString(d1) + "ms"))).Ok?
    ensures Cost(p.(delay := Some(IntToString(d2) + "ms"))).Ok?
    ensures Cost(p.(delay := Some(IntToString(d1) + "ms"))).value <= Cost(p.(delay := Some(IntToString(d2) + "ms"))).value
  {
    MillisOfFormatted(d1);
    MillisOfFormatted(d2);
  }

  /** A larger jitter never lowers the cost. */
  lemma MonotoneInJitter(p: LinkParams, j1: int, j2: int)
    requires j1 <= j2
    requires Cost(p.(jitter := Some(IntToString(j1) + "ms"))).Ok?
    ensures Cost(p.(jitter := Some(IntToString(j2) + "ms"))).Ok?
    ensures Cost(p.(jitter := Some(IntToString(j1) + "ms"))).value <= Cost(p.(jitter := Some(IntToString(j2) + "ms"))).value
  {
    MillisOfFormatted(j1);
    MillisOfFormatted(j2);
  }

  /** Truncation toward zero never reverses an order. */
  lemma TruncMonotone(x: real, y: real)
    requires x <= y
    ensures Trunc(x) <= Trunc(y)
  {
    if x < 0.0 && y >= 0.0 {
      assert (-x).Floor >= 0;
    }
  }

  /** A larger loss never lowers the cost. */
  lemma MonotoneInLoss(p: LinkParams, l1: real, l2: real)
    requires l1 <= l2
    requires Cost(p.(loss := Some(l1))).Ok?
    ensures Cost(p.(loss := Some(l2))).Ok?
    ensures Cost(p.(loss := Some(l1))).value <= Cost(p.(loss := Some(l2))).value
  {
    TruncMonotone(10.0 * l1, 10.0 * l2);
  }

  /** Dividing by a larger positive number gives a quotient no larger. */
  lemma QuotientAntitone(n: nat, b1: int, b2: int)
    requires 0 < b1 <= b2
    ensures n / b2 <= n / b1
  {
    var q, r := n / b2, n / b1;
    assert q * b2 <= n;
    assert q * b1 <= q * b2 by {
      assert q >= 0;
    }
    assert n < (r + 1) * b1 by {
      assert n == r * b1 + n % b1;
    }
    assert q * b1 < (r + 1) * b1;
  }

  /** A larger positive bandwidth never raises the cost: below 100 Mbit/s the term
      1000/bw shrinks as bw grows, and from 100 on it is zero. */
  lemma MonotoneInBandwidth(p: LinkParams, b1: int, b2: int)
    requires 0 < b1 <= b2
    requires Cost(p.(bw := Some(b1))).Ok?
    ensures Cost(p.(bw := Some(b2))).Ok?
    ensures Cost(p.(bw := Some(b2))).value <= Cost(p.(bw := Some(b1))).value
  {
    if b2 < 100 {
      QuotientAntitone(1000, b1, b2);
    }
    assert BandwidthTerm(Some(b2)) <= BandwidthTerm(Some(b1));
  }
}
