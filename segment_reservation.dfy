/** A COLIBRI segment reservation (go/co/reservation/segment/reservation.go): its list of
    indices, the position of the active one, and the index life cycle
    Temporary -> Pending (confirmed) -> Active, after which older indices are dropped. */
module SegmentReservation {
  import opened Wrappers
  import opened Text

  /** `reservation.IDSuffixSegLen`: the length of a segment reservation ID suffix. */
  const IDSuffixSegLen := 4

  /** A 4-bit index number; `Add` and `Sub` wrap around modulo 16. */
  newtype IndexNumber = x: int | 0 <= x < 16

  function Add(i: IndexNumber, n: nat): IndexNumber {
    ((i as int + n) % 16) as IndexNumber
  }

  function Sub(i: IndexNumber, n: nat): IndexNumber {
    ((i as int - n) % 16) as IndexNumber
  }

  /** A bandwidth class (`reservation.BWCls`, a byte). */
  newtype BWCls = x: int | 0 <= x < 256

  datatype IndexState = IndexTemporary | IndexPending | IndexActive

  /** One index of the reservation (its token is not modelled). */
  datatype Index = Index(idx: IndexNumber, expiration: int, state: IndexState,
                         minBW: BWCls, maxBW: BWCls, allocBW: BWCls)

  datatype ReservationError =
    | IndexNotFound(idx: IndexNumber)
    | InvalidIndices
    | ConfirmActive(idx: IndexNumber)
    | NotConfirmed(idx: IndexNumber, state: IndexState)
    | PastIndex(lastActive: IndexNumber, current: IndexNumber)
    | IDNotSet
    | InvalidActiveIndex(activeIndex: int)
    | MoreThanOneActive(firstActive: IndexNumber, anotherActive: IndexNumber)

  /** `base.FindIndex` is defined elsewhere and passed in as `findIndex`. What the callers
      rely on is that a position it returns lies within the list. */
  predicate InRange(findIndex: (seq<Index>, IndexNumber) -> Option<nat>, indices: seq<Index>, idx: IndexNumber) {
    findIndex(indices, idx).Some? ==> findIndex(indices, idx).value < |indices|
  }

  /** `findIndex` behaves as a search by number on this list: a position it returns holds
      an index with that number, and it finds none exactly when no index has the number. */
  predicate SearchesByNumber(findIndex: (seq<Index>, IndexNumber) -> Option<nat>, indices: seq<Index>, idx: IndexNumber) {
    InRange(findIndex, indices, idx)
    && (findIndex(indices, idx).Some? ==> indices[findIndex(indices, idx).value].idx == idx)
    && (findIndex(indices, idx).None? <==> forall j :: 0 <= j < |indices| ==> indices[j].idx != idx)
  }

  /** A reference search by number: the position of the first index with that number. */
  function FirstWithNumber(indices: seq<Index>, idx: IndexNumber): (r: Option<nat>)
    ensures r.Some? ==> r.value < |indices| && indices[r.value].idx == idx
                        && forall j :: 0 <= j < r.value ==> indices[j].idx != idx
    ensures r.None? <==> forall j :: 0 <= j < |indices| ==> indices[j].idx != idx
    decreases |indices|
  {
    if indices == [] then None
    else if indices[0].idx == idx then Some(0)
    else match FirstWithNumber(indices[1..], idx)
      case None => None
      case Some(k) => Some(k + 1)
  }

  /** The first-match search is a search by number on every list, so the hypothesis the
      index contracts are stated under can be met. */
  lemma FirstWithNumberSearches(indices: seq<Index>, idx: IndexNumber)
    ensures SearchesByNumber(FirstWithNumber, indices, idx)
  {
  }

  /** The number of indices in state Active. */
  function ActiveCount(indices: seq<Index>): nat
    decreases |indices|
  {
    if indices == [] then 0
    else ActiveCount(indices[..|indices| - 1]) + (if indices[|indices| - 1].state == IndexActive then 1 else 0)
  }

  lemma {:induction false} ActiveCountPrefix(indices: seq<Index>, n: nat)
    requires n <= |indices|
    ensures ActiveCount(indices[..n]) <= ActiveCount(indices)
    decreases |indices|
  {
    if n < |indices| {
      var init := indices[..|indices| - 1];
      assert init[..n] == indices[..n];
      ActiveCountPrefix(init, n);
    } else {
      assert indices[..n] == indices;
    }
  }

  /** The largest of a sequence of bandwidth classes, starting from 0 (`MaxBWCls` folded). */
  function MaxOf(bws: seq<BWCls>): BWCls
    decreases |bws|
  {
    if bws == [] then 0
    else
      var m := MaxOf(bws[..|bws| - 1]);
      if bws[|bws| - 1] > m then bws[|bws| - 1] else m
  }

  /** The maximum bounds every element and is one of them. */
  lemma {:induction false} MaxOfIsMaximum(bws: seq<BWCls>)
    ensures forall i :: 0 <= i < |bws| ==> bws[i] <= MaxOf(bws)
    ensures bws != [] ==> exists i :: 0 <= i < |bws| && bws[i] == MaxOf(bws)
    decreases |bws|
  {
    if bws != [] {
      var init := bws[..|bws| - 1];
      MaxOfIsMaximum(init);
      forall i | 0 <= i < |init| ensures bws[i] <= MaxOf(bws) {
        assert bws[i] == init[i];
      }
      if init != [] && MaxOf(bws) == MaxOf(init) {
        var i :| 0 <= i < |init| && init[i] == MaxOf(init);
        assert bws[i] == init[i];
      }
    }
  }

  function AllocBWs(indices: seq<Index>): (r: seq<BWCls>)
    ensures |r| == |indices| && forall i :: 0 <= i < |indices| ==> r[i] == indices[i].allocBW
  {
    seq(|indices|, i requires 0 <= i < |indices| => indices[i].allocBW)
  }

  function MaxBWs(indices: seq<Index>): (r: seq<BWCls>)
    ensures |r| == |indices| && forall i :: 0 <= i < |indices| ==> r[i] == indices[i].maxBW
  {
    seq(|indices|, i requires 0 <= i < |indices| => indices[i].maxBW)
  }

  /** A segment reservation. `validIndices` stands for `base.ValidateIndices` and
      `toKbps` for `BWCls.ToKbps`, which are defined elsewhere. */
  class Reservation {
    var asid: nat
    var suffix: seq<byte>
    var indices: seq<Index>
    var activeIndex: int

    /** The field comment's invariant: -1 <= activeIndex < len(Indices). */
    predicate Valid()
      reads this
    {
      -1 <= activeIndex < |indices|
    }

    /** `NewReservation` (reservation.go:41-49). */
    constructor (asid: nat)
      ensures this.asid == asid && suffix == seq(IDSuffixSegLen, _ => 0 as byte)
      ensures indices == [] && activeIndex == -1
      ensures Valid()
    {
      this.asid := asid;
      suffix := seq(IDSuffixSegLen, _ => 0 as byte);
      indices := [];
      activeIndex := -1;
    }

    /** `ActiveIndex` (reservation.go:122-127): the active index, or none. */
    function ActiveIndex(): (r: Option<Index>)
      requires Valid()
      reads this
      ensures r.Some? <==> activeIndex != -1
      ensures r.Some? ==> r.value in indices
    {
      if activeIndex == -1 then None else Some(indices[activeIndex])
    }

    /** The index checks of `Validate` (reservation.go:85-109): the ID must be set, the
        indices must pass `validIndices`, the active position can only be -1 or 0, and at
        most one index may be Active. The path and end-property checks that follow are not
        modelled. */
    method ValidateIndexChecks(validIndices: seq<Index> -> bool) returns (r: Outcome<ReservationError>)
      ensures asid == 0 ==> r == Fail(IDNotSet)
      ensures r.Pass? <==> asid != 0 && validIndices(indices) && -1 <= activeIndex <= 0
                           && activeIndex < |indices| && ActiveCount(indices) <= 1
      ensures r.Fail? && r.error.MoreThanOneActive? ==>
                asid != 0 && validIndices(indices) && ActiveCount(indices) >= 2
    {
      if asid == 0 {
        return Fail(IDNotSet);
      }
      if !validIndices(indices) {
        return Fail(InvalidIndices);
      }
      if activeIndex < -1 || activeIndex > 0 || activeIndex >= |indices| {
        return Fail(InvalidActiveIndex(activeIndex));
      }
      var found := -1;
      var i := 0;
      while i < |indices|
        invariant 0 <= i <= |indices|
        invariant -1 <= found < i
        invariant ActiveCount(indices[..i]) <= 1
        invariant found == -1 <==> ActiveCount(indices[..i]) == 0
      {
        assert indices[..i + 1][..i] == indices[..i];
        if indices[i].state == IndexActive {
          if found != -1 {
            ActiveCountPrefix(indices, i + 1);
            return Fail(MoreThanOneActive(indices[found].idx, indices[i].idx));
          }
          found := i;
        }
        i := i + 1;
      }
      assert indices[..i] == indices;
      return Pass;
    }

    /** `addIndex` (reservation.go:153-162): the index is appended only when the extended
        list passes `validIndices`. */
    method AddIndex(index: Index, validIndices: seq<Index> -> bool) returns (r: Result<IndexNumber, ReservationError>)
      requires Valid()
      modifies this
      ensures Valid() && activeIndex == old(activeIndex) && asid == old(asid) && suffix == old(suffix)
      ensures validIndices(old(indices) + [index]) ==> indices == old(indices) + [index] && r == Ok(index.idx)
      ensures !validIndices(old(indices) + [index]) ==> indices == old(indices) && r == Err(InvalidIndices)
    {
      var newIndices := indices + [index];
      if !validIndices(newIndices) {
        return Err(InvalidIndices);
      }
      indices := newIndices;
      return Ok(index.idx);
    }

    /** `NewIndex` (reservation.go:132-151): a new index starts Temporary. */
    method NewIndex(idx: IndexNumber, expiration: int, minBW: BWCls, maxBW: BWCls, allocBW: BWCls,
                    validIndices: seq<Index> -> bool)
      returns (r: Result<IndexNumber, ReservationError>)
      requires Valid()
      modifies this
      ensures Valid() && activeIndex == old(activeIndex) && asid == old(asid) && suffix == old(suffix)
      ensures var index := Index(idx, expiration, IndexTemporary, minBW, maxBW, allocBW);
              validIndices(old(indices) + [index]) ==> indices == old(indices) + [index] && r == Ok(idx)
      ensures var index := Index(idx, expiration, IndexTemporary, minBW, maxBW, allocBW);
              !validIndices(old(indices) + [index]) ==> indices == old(indices) && r == Err(InvalidIndices)
    {
      var index := Index(idx, expiration, IndexTemporary, minBW, maxBW, allocBW);
      r := AddIndex(index, validIndices);
    }

    /** `Index` (reservation.go:165-171): the index at the position `findIndex` returns,
        or none when it returns an error. */
    function IndexOf(idx: IndexNumber, findIndex: (seq<Index>, IndexNumber) -> Option<nat>): (r: Option<Index>)
      requires InRange(findIndex, indices, idx)
      reads this
      ensures r.Some? <==> findIndex(indices, idx).Some?
      ensures r.Some? ==> r.value in indices
      ensures SearchesByNumber(findIndex, indices, idx) ==>
                (r.Some? ==> r.value.idx == idx) && (r.None? <==> forall i :: 0 <= i < |indices| ==> indices[i].idx != idx)
    {
      match findIndex(indices, idx)
      case None => None
      case Some(k) => Some(indices[k])
    }

    /** `NextIndexToRenew` (reservation.go:173-179): the number after the last index's. */
    function NextIndexToRenew(): (r: IndexNumber)
      reads this
      ensures indices != [] ==> Sub(r, 1) == indices[|indices| - 1].idx
      ensures indices == [] ==> r == 0
    {
      var last := if |indices| > 0 then indices[|indices| - 1].idx else Sub(0, 1);
      Add(last, 1)
    }

    /** `NextIndexToActivate` (reservation.go:181-191). */
    function NextIndexToActivate(): (r: Option<Index>)
      requires Valid()
      reads this
      ensures indices == [] ==> r.None?
      ensures indices != [] && activeIndex < 0 ==> r == Some(indices[|indices| - 1])
      ensures activeIndex >= 0 ==> (r.Some? <==> activeIndex + 1 < |indices|)
      ensures activeIndex >= 0 && r.Some? ==> r.value == indices[activeIndex + 1]
    {
      if |indices| == 0 then None
      else if activeIndex < 0 then Some(indices[|indices| - 1])
      else if activeIndex + 1 < |indices| then Some(indices[activeIndex + 1])
      else None
    }

    /** `SetIndexConfirmed` (reservation.go:195-205). */
    method SetIndexConfirmed(idx: IndexNumber, findIndex: (seq<Index>, IndexNumber) -> Option<nat>)
      returns (r: Outcome<ReservationError>)
      requires Valid() && InRange(findIndex, indices, idx)
      modifies this
      ensures Valid() && activeIndex == old(activeIndex) && |indices| == |old(indices)|
      ensures asid == old(asid) && suffix == old(suffix)
      ensures findIndex(old(indices), idx).None? ==> r == Fail(IndexNotFound(idx)) && indices == old(indices)
      ensures findIndex(old(indices), idx).Some? ==>
                var k := findIndex(old(indices), idx).value;
                if old(indices)[k].state == IndexActive then r == Fail(ConfirmActive(idx)) && indices == old(indices)
                else r == Pass && indices == old(indices)[k := old(indices)[k].(state := IndexPending)]
      ensures SearchesByNumber(findIndex, old(indices), idx) && r.Pass? ==>
                exists k :: 0 <= k < |indices| && indices[k].idx == idx && indices[k].state == IndexPending
    {
      var k := findIndex(indices, idx);
      if k.None? {
        return Fail(IndexNotFound(idx));
      }
      var sliceIndex := k.value;
      if indices[sliceIndex].state == IndexActive {
        return Fail(ConfirmActive(idx));
      }
      indices := indices[sliceIndex := indices[sliceIndex].(state := IndexPending)];
      assert indices[sliceIndex].state == IndexPending;
      return Pass;
    }

    /** `SetIndexActive` (reservation.go:209-233): activating a confirmed (or, when
        reloading, already active) index at or after the current active one drops all
        indices before it. */
    method SetIndexActive(idx: IndexNumber, findIndex: (seq<Index>, IndexNumber) -> Option<nat>)
      returns (r: Outcome<ReservationError>)
      requires Valid() && InRange(findIndex, indices, idx)
      modifies this
      ensures Valid() && asid == old(asid) && suffix == old(suffix)
      ensures findIndex(old(indices), idx).None? ==>
                r == Fail(IndexNotFound(idx)) && indices == old(indices) && activeIndex == old(activeIndex)
      ensures findIndex(old(indices), idx).Some? ==>
                var k := findIndex(old(indices), idx).value;
                var s := old(indices)[k].state;
                if old(activeIndex) == k then r == Pass && indices == old(indices) && activeIndex == old(activeIndex)
                else if s != IndexPending && s != IndexActive then
                  r == Fail(NotConfirmed(idx, s)) && indices == old(indices) && activeIndex == old(activeIndex)
                else if old(activeIndex) > k then
                  r == Fail(PastIndex(old(indices)[old(activeIndex)].idx, idx))
                  && indices == old(indices) && activeIndex == old(activeIndex)
                else
                  r == Pass && activeIndex == 0
                  && indices == [old(indices)[k].(state := IndexActive)] + old(indices)[k + 1..]
      ensures r.Pass? ==> ActiveIndex().Some?
      ensures SearchesByNumber(findIndex, old(indices), idx) && r.Pass? ==> ActiveIndex().value.idx == idx
    {
      var k := findIndex(indices, idx);
      if k.None? {
        return Fail(IndexNotFound(idx));
      }
      var sliceIndex := k.value;
      if activeIndex == sliceIndex {
        return Pass;
      }
      var s := indices[sliceIndex].state;
      if s != IndexPending && s != IndexActive {
        return Fail(NotConfirmed(idx, s));
      }
      if activeIndex > -1 {
        if activeIndex > sliceIndex {
          return Fail(PastIndex(indices[activeIndex].idx, idx));
        }
      }
      indices := indices[sliceIndex..];
      activeIndex := 0;
      indices := indices[0 := indices[0].(state := IndexActive)];
      return Pass;
    }

    /** `RemoveIndex` (reservation.go:236-249): drops every index up to and including the
        one with that number; the active position follows its index or is cleared. */
    method RemoveIndex(idx: IndexNumber, findIndex: (seq<Index>, IndexNumber) -> Option<nat>)
      returns (r: Outcome<ReservationError>)
      requires Valid() && InRange(findIndex, indices, idx)
      modifies this
      ensures Valid() && asid == old(asid) && suffix == old(suffix)
      ensures findIndex(old(indices), idx).None? ==>
                r == Fail(IndexNotFound(idx)) && indices == old(indices) && activeIndex == old(activeIndex)
      ensures findIndex(old(indices), idx).Some? ==>
                var k := findIndex(old(indices), idx).value;
                r == Pass && indices == old(indices)[k + 1..]
                && activeIndex == (if old(activeIndex) > k then old(activeIndex) - (k + 1) else -1)
      ensures r.Pass? && old(activeIndex) > findIndex(old(indices), idx).value ==>
                ActiveIndex() == old(ActiveIndex())
    {
      var k := findIndex(indices, idx);
      if k.None? {
        return Fail(IndexNotFound(idx));
      }
      var sliceIndex := k.value;
      indices := indices[sliceIndex + 1..];
      if activeIndex > sliceIndex {
        activeIndex := activeIndex - (sliceIndex + 1);
      } else {
        activeIndex := -1;
      }
      return Pass;
    }

    /** `MaxBlockedBW` (reservation.go:257-266): the kbps of the largest allocated class. */
    method MaxBlockedBW(toKbps: BWCls -> nat) returns (r: nat)
      ensures indices == [] ==> r == 0
      ensures indices != [] ==> r == toKbps(MaxOf(AllocBWs(indices)))
    {
      if |indices| == 0 {
        return 0;
      }
      var max: BWCls := 0;
      var i := 0;
      while i < |indices|
        invariant 0 <= i <= |indices|
        invariant max == MaxOf(AllocBWs(indices)[..i])
      {
        assert AllocBWs(indices)[..i + 1][..i] == AllocBWs(indices)[..i];
        max := if indices[i].allocBW > max then indices[i].allocBW else max;
        i := i + 1;
      }
      assert AllocBWs(indices)[..i] == AllocBWs(indices);
      return toKbps(max);
    }

    /** `MaxRequestedBW` (reservation.go:269-278): the kbps of the largest requested class. */
    method MaxRequestedBW(toKbps: BWCls -> nat) returns (r: nat)
      ensures indices == [] ==> r == 0
      ensures indices != [] ==> r == toKbps(MaxOf(MaxBWs(indices)))
    {
      if |indices| == 0 {
        return 0;
      }
      var max: BWCls := 0;
      var i := 0;
      while i < |indices|
        invariant 0 <= i <= |indices|
        invariant max == MaxOf(MaxBWs(indices)[..i])
      {
        assert MaxBWs(indices)[..i + 1][..i] == MaxBWs(indices)[..i];
        max := if indices[i].maxBW > max then indices[i].maxBW else max;
        i := i + 1;
      }
      assert MaxBWs(indices)[..i] == MaxBWs(indices);
      return toKbps(max);
    }
  }

  /** A fresh reservation renews with index number 0, and wrap-around keeps the numbers
      cyclic: the number after 15 is 0. */
  lemma IndexNumbersWrap()
    ensures Add(Sub(0, 1), 1) == 0
    ensures Add(15, 1) == 0
    ensures forall i: IndexNumber :: Sub(Add(i, 1), 1) == i
  {
  }
}
