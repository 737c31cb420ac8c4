/** The end-to-end setup request of go/co/reservation/e2e/request.go: its validation and
    the serialization of its immutable fields, the bytes the request's authenticators cover. */
module E2eRequest {
  import opened Wrappers
  import opened Text
  import SegmentReservation

  // ---------------------------------------------------------------------------
  // Byte helpers
  // ---------------------------------------------------------------------------

  /** `w` zero bytes. */
  function Zeros(w: nat): (r: seq<byte>)
    ensures |r| == w && forall i :: 0 <= i < w ==> r[i] == 0
  {
    seq(w, _ => 0 as byte)
  }

  /** `n` as `w` bytes, most significant first, keeping the low `8 * w` bits (what
      `binary.BigEndian.PutUint64` writes for `w == 8`). */
  function BigEndian(n: nat, w: nat): (r: seq<byte>)
    ensures |r| == w
    decreases w
  {
    if w == 0 then [] else BigEndian(n / 256, w - 1) + [(n % 256) as byte]
  }

  /** The number whose big-endian bytes are `b`. */
  function FromBigEndian(b: seq<byte>): nat
    decreases |b|
  {
    if b == [] then 0 else FromBigEndian(b[..|b| - 1]) * 256 + b[|b| - 1] as nat
  }

  function Pow256(w: nat): (r: nat)
    ensures r >= 1
  {
    if w == 0 then 1 else 256 * Pow256(w - 1)
  }

  /** Reading back the big-endian bytes of a number that fits gives the number. */
  lemma {:induction false} BigEndianRoundTrip(n: nat, w: nat)
    requires n < Pow256(w)
    ensures FromBigEndian(BigEndian(n, w)) == n
    decreases w
  {
    if w > 0 {
      var b := BigEndian(n, w);
      assert b[..|b| - 1] == BigEndian(n / 256, w - 1);
      BigEndianRoundTrip(n / 256, w - 1);
    }
  }

  /** Go's `uint64`. */
  newtype Uint64 = x: int | 0 <= x < 0x1_0000_0000_0000_0000

  lemma SegIDLenValue()
    ensures SegIDLen == SegmentReservation.IDSuffixSegLen + 6
  {
  }

  lemma Pow256Of8()
    ensures Pow256(8) == 0x1_0000_0000_0000_0000
  {
  }

  // ---------------------------------------------------------------------------
  // IP addresses (Go's net.IP)
  // ---------------------------------------------------------------------------

  /** `net.IP.To16`: a 16-byte address as it is, a 4-byte one mapped into IPv6
      (::ffff:a.b.c.d), anything else nil (here empty). */
  function To16(ip: seq<byte>): (r: seq<byte>)
    ensures |r| == 16 || r == []
  {
    if |ip| == 4 then Zeros(10) + [255, 255] + ip
    else if |ip| == 16 then ip
    else []
  }

  /** `net.IP.IsUnspecified`: equal to 0.0.0.0 or to ::. */
  predicate IsUnspecified(ip: seq<byte>) {
    To16(ip) == To16([0, 0, 0, 0]) || To16(ip) == Zeros(16)
  }

  /** The 16 bytes `copy(buff[offset:], ip.To16())` leaves in a zeroed buffer. */
  function Host16(ip: Option<seq<byte>>): (r: seq<byte>)
    ensures |r| == 16
  {
    match ip
    case None => Zeros(16)
    case Some(a) => if |To16(a)| == 16 then To16(a) else Zeros(16)
  }

  // ---------------------------------------------------------------------------
  // Requests
  // ---------------------------------------------------------------------------

  /** A COLIBRI reservation ID (`reservation.ID`): the AS number and the suffix. */
  datatype ReservationID = ReservationID(asid: nat, suffix: seq<byte>)

  /** `ID.Len`: six bytes of AS number and the suffix. */
  function IDLen(id: ReservationID): nat {
    6 + |id.suffix|
  }

  /** What `ID.Read` writes: the 48-bit AS number in big-endian order, then the suffix. */
  function IDBytes(id: ReservationID): (r: seq<byte>)
    ensures |r| == IDLen(id)
  {
    BigEndian(id.asid, 6) + id.suffix
  }

  /** The length `ID.Read` reports for a segment reservation ID,
      `reservation.IDSuffixSegLen + 6`. */
  const SegIDLen := 10

  /** The fields of `SetupReq` the model looks at. `srcIA` and `dstIA` are the `IAInt`
      values of the path's end points; a nil host is `None`. */
  datatype SetupReq = SetupReq(
    id: ReservationID,
    srcIA: Uint64,
    dstIA: Uint64,
    srcHost: Option<seq<byte>>,
    dstHost: Option<seq<byte>>,
    requestedBW: SegmentReservation.BWCls,
    segmentRsvs: seq<ReservationID>)

  datatype ValidationError<E> =
    | BaseInvalid(base: E)
    | NotE2EID(asid: nat)
    | BadSegmentCount(count: nat)
    | EmptyHost

  /** A host that is nil or unspecified. */
  predicate EmptyHostField(h: Option<seq<byte>>) {
    h.None? || IsUnspecified(h.value)
  }

  /** `SetupReq.Validate` (request.go:45-63). `base` is the outcome of the embedded
      `Request.Validate` and `isE2E` is `ID.IsE2EID`; both are given. */
  function Validate<E>(r: SetupReq, base: Outcome<E>, isE2E: ReservationID -> bool): (res: Outcome<ValidationError<E>>)
    ensures base.Fail? ==> res == Fail(BaseInvalid(base.error))
    ensures res == Pass <==>
              base.Pass? && isE2E(r.id) && 1 <= |r.segmentRsvs| <= 3
              && !EmptyHostField(r.srcHost) && !EmptyHostField(r.dstHost)
    ensures base.Pass? && isE2E(r.id) && (|r.segmentRsvs| == 0 || |r.segmentRsvs| > 3) ==>
              res == Fail(BadSegmentCount(|r.segmentRsvs|))
    ensures base.Pass? && isE2E(r.id) && 1 <= |r.segmentRsvs| <= 3 && (EmptyHostField(r.srcHost) || EmptyHostField(r.dstHost)) ==>
              res == Fail(EmptyHost)
  {
    if base.Fail? then Fail(BaseInvalid(base.error))
    else if !isE2E(r.id) then Fail(NotE2EID(r.id.asid))
    else if |r.segmentRsvs| == 0 || |r.segmentRsvs| > 3 then Fail(BadSegmentCount(|r.segmentRsvs|))
    else if EmptyHostField(r.srcHost) || EmptyHostField(r.dstHost) then Fail(EmptyHost)
    else Pass
  }

  /** Both the IPv4 and the IPv6 unspecified addresses, and nil, are rejected. */
  lemma UnspecifiedHostsRejected<E>(r: SetupReq, isE2E: ReservationID -> bool)
    requires isE2E(r.id) && 1 <= |r.segmentRsvs| <= 3
    requires r.srcHost == Some([0, 0, 0, 0]) || r.srcHost == Some(Zeros(16)) || r.dstHost.None?
    ensures Validate<E>(r, Pass, isE2E) == Fail(EmptyHost)
  {
    var z4: seq<byte> := [0, 0, 0, 0];
    assert IsUnspecified(z4);
    assert To16(Zeros(16)) == Zeros(16);
  }

  // ---------------------------------------------------------------------------
  // SerializeImmutableFields
  // ---------------------------------------------------------------------------

  /** The bytes before the segment IDs: the request's own serialization `base` (ID, index
      and timestamp, written by `Request.Serialize`), then source IA, source host,
      destination IA, destination host and the requested bandwidth. */
  function FixedFields(r: SetupReq, base: seq<byte>): seq<byte> {
    base + BigEndian(r.srcIA as nat, 8) + Host16(r.srcHost) + BigEndian(r.dstIA as nat, 8)
    + Host16(r.dstHost) + [r.requestedBW as byte]
  }

  /** The segment IDs one after the other. */
  function SegmentBytes(ids: seq<ReservationID>): seq<byte>
    decreases |ids|
  {
    if ids == [] then [] else SegmentBytes(ids[..|ids| - 1]) + IDBytes(ids[|ids| - 1])
  }

  /** Every segment ID has the length `ID.Read` must report. */
  predicate SegmentIDsConsistent(ids: seq<ReservationID>) {
    forall k :: 0 <= k < |ids| ==> IDLen(ids[k]) == SegIDLen
  }

  /** The immutable fields as intended: each segment ID written at the current offset. */
  function ImmutableFields(r: SetupReq, base: seq<byte>): seq<byte> {
    FixedFields(r, base) + SegmentBytes(r.segmentRsvs)
  }

  datatype SerializeError = InconsistentIDLength(id: ReservationID)

  /** The bytes of consistent segment IDs take `SegIDLen` bytes each. */
  lemma {:induction false} SegmentBytesLength(ids: seq<ReservationID>)
    requires SegmentIDsConsistent(ids)
    ensures |SegmentBytes(ids)| == |ids| * SegIDLen
    decreases |ids|
  {
    if ids != [] {
      SegmentBytesLength(ids[..|ids| - 1]);
    }
  }

  /** Segment ID `k` sits at offset `k * SegIDLen` of the segment bytes. */
  lemma {:induction false} SegmentBytesAt(ids: seq<ReservationID>, k: nat)
    requires SegmentIDsConsistent(ids) && k < |ids|
    ensures |SegmentBytes(ids)| == |ids| * SegIDLen
    ensures SegmentBytes(ids)[k * SegIDLen..k * SegIDLen + SegIDLen] == IDBytes(ids[k])
    decreases |ids|
  {
    SegmentBytesLength(ids);
    var init := ids[..|ids| - 1];
    SegmentBytesLength(init);
    var front, last := SegmentBytes(init), IDBytes(ids[|ids| - 1]);
    assert SegmentBytes(ids) == front + last;
    var lo := k * SegIDLen;
    if k < |ids| - 1 {
      assert SegmentIDsConsistent(init) by {
        forall j | 0 <= j < |init| ensures IDLen(init[j]) == SegIDLen {
          assert init[j] == ids[j];
        }
      }
      SegmentBytesAt(init, k);
      TimesSegIDLenSucc(k);
      TimesSegIDLenMono(k + 1, |init|);
      assert (front + last)[lo..lo + SegIDLen] == front[lo..lo + SegIDLen];
    } else {
      assert lo == |front|;
      SliceAfter(front, last, 0, SegIDLen);
      assert last[0..SegIDLen] == last;
    }
  }

  lemma TimesSegIDLenSucc(a: nat)
    ensures (a + 1) * SegIDLen == a * SegIDLen + SegIDLen
  {
  }

  lemma TimesSegIDLenMono(a: nat, b: nat)
    requires a <= b
    ensures a * SegIDLen <= b * SegIDLen
  {
  }

  /** The intended serialization takes `ID.Len() + 5 + 49 + n * SegIDLen` bytes and begins
      with the request's own bytes. */
  lemma ImmutableLength(r: SetupReq, base: seq<byte>)
    requires |base| == IDLen(r.id) + 5 && SegmentIDsConsistent(r.segmentRsvs)
    ensures |ImmutableFields(r, base)| == IDLen(r.id) + 5 + 49 + |r.segmentRsvs| * SegIDLen
    ensures ImmutableFields(r, base)[..|base|] == base
  {
    SegmentBytesLength(r.segmentRsvs);
  }

  /** The fixed fields, starting at `o == ID.Len() + 5`: source IA in 8 big-endian bytes,
      source host in 16, destination IA in 8, destination host in 16, the requested
      bandwidth at `o + 48`. */
  lemma FixedLayout(r: SetupReq, base: seq<byte>)
    requires |base| == IDLen(r.id) + 5
    ensures var o, b := |base|, ImmutableFields(r, base);
      |b| >= o + 49
      && FromBigEndian(b[o..o + 8]) == r.srcIA as nat
      && b[o + 8..o + 24] == Host16(r.srcHost)
      && FromBigEndian(b[o + 24..o + 32]) == r.dstIA as nat
      && b[o + 32..o + 48] == Host16(r.dstHost)
      && b[o + 48] == r.requestedBW as byte
  {
    var o, b := |base|, ImmutableFields(r, base);
    var p1, p2, p3 := BigEndian(r.srcIA as nat, 8), Host16(r.srcHost), BigEndian(r.dstIA as nat, 8);
    var p4, p5 := Host16(r.dstHost), [r.requestedBW as byte];
    var f1 := base + p1;
    var f2 := f1 + p2;
    var f3 := f2 + p3;
    var f4 := f3 + p4;
    var f5 := f4 + p5;
    assert b == f5 + SegmentBytes(r.segmentRsvs);
    PieceAt(f4, p5, SegmentBytes(r.segmentRsvs));
    PrefixAt(f4, p5 + SegmentBytes(r.segmentRsvs));
    assert b[..o + 48] == f4;
    PieceAt(f3, p4, []);
    assert b[o + 32..o + 48] == p4;
    assert b[..o + 32] == f3;
    PieceAt(f2, p3, []);
    assert b[o + 24..o + 32] == p3;
    assert b[..o + 24] == f2;
    PieceAt(f1, p2, []);
    assert b[o + 8..o + 24] == p2;
    assert b[..o + 8] == f1;
    PieceAt(base, p1, []);
    assert b[o..o + 8] == p1;
    Pow256Of8();
    BigEndianRoundTrip(r.srcIA as nat, 8);
    BigEndianRoundTrip(r.dstIA as nat, 8);
  }

  /** The middle piece of a concatenation. */
  lemma PieceAt(x: seq<byte>, y: seq<byte>, z: seq<byte>)
    ensures (x + y + z)[|x|..|x| + |y|] == y
  {
  }

  /** The front of a concatenation. */
  lemma PrefixAt(x: seq<byte>, y: seq<byte>)
    ensures (x + y)[..|x|] == x
  {
  }

  /** Segment ID `k` sits at `ID.Len() + 5 + 49 + k * SegIDLen`. */
  lemma SegmentLayout(r: SetupReq, base: seq<byte>, k: nat)
    requires |base| == IDLen(r.id) + 5 && SegmentIDsConsistent(r.segmentRsvs) && k < |r.segmentRsvs|
    ensures var o, b := |base| + 49, ImmutableFields(r, base);
      |b| == o + |r.segmentRsvs| * SegIDLen
      && b[o + k * SegIDLen..o + k * SegIDLen + SegIDLen] == IDBytes(r.segmentRsvs[k])
  {
    var fixed, segs := FixedFields(r, base), SegmentBytes(r.segmentRsvs);
    SegmentBytesAt(r.segmentRsvs, k);
    var lo := k * SegIDLen;
    TimesSegIDLenMono(k + 1, |r.segmentRsvs|);
    SliceAfter(fixed, segs, lo, lo + SegIDLen);
    assert |fixed| == |base| + 49;
    assert ImmutableFields(r, base) == fixed + segs;
    assert (fixed + segs)[|fixed| + lo..|fixed| + lo + SegIDLen] == IDBytes(r.segmentRsvs[k]);
  }

  lemma ConcatAssoc(a: seq<byte>, b: seq<byte>, c: seq<byte>)
    ensures a + (b + c) == (a + b) + c
  {
  }

  /** A slice of the second part of a concatenation. */
  lemma SliceAfter(x: seq<byte>, y: seq<byte>, i: nat, j: nat)
    requires i <= j <= |y|
    ensures (x + y)[|x| + i..|x| + j] == y[i..j]
  {
  }

  /** The first segment ID whose length is not `SegIDLen`, if any, on which the source
      panics. */
  function FirstInconsistent(ids: seq<ReservationID>): (r: Option<nat>)
    ensures r.None? <==> SegmentIDsConsistent(ids)
    ensures r.Some? ==> r.value < |ids| && IDLen(ids[r.value]) != SegIDLen
                        && SegmentIDsConsistent(ids[..r.value])
    decreases |ids|
  {
    if ids == [] then None
    else if IDLen(ids[0]) != SegIDLen then Some(0)
    else match FirstInconsistent(ids[1..])
      case None => None
      case Some(k) => Some(k + 1)
  }

  /** What `SerializeImmutableFields` (request.go:65-96) writes, as the source has it:
      `id.Read(buff)` writes every segment ID at offset 0, over the request's own ID, and
      the segment area stays zero. */
  function ImmutableFieldsAsWritten(r: SetupReq, base: seq<byte>): (w: seq<byte>)
    requires |base| == IDLen(r.id) + 5 && SegmentIDsConsistent(r.segmentRsvs)
    ensures |w| == |base| + 49 + |r.segmentRsvs| * SegIDLen
    ensures r.segmentRsvs != [] ==> w[..SegIDLen] == IDBytes(r.segmentRsvs[|r.segmentRsvs| - 1])
  {
    var buf := FixedFields(r, base) + Zeros(|r.segmentRsvs| * SegIDLen);
    if r.segmentRsvs != [] then
      OverwriteFrontLast(buf, r.segmentRsvs);
      OverwriteFront(buf, r.segmentRsvs)
    else
      OverwriteFront(buf, r.segmentRsvs)
  }

  /** Each ID in turn written over the first `SegIDLen` bytes of `buf`. */
  function OverwriteFront(buf: seq<byte>, ids: seq<ReservationID>): (r: seq<byte>)
    requires |buf| >= SegIDLen && SegmentIDsConsistent(ids)
    ensures |r| == |buf|
    ensures r[SegIDLen..] == buf[SegIDLen..]
    decreases |ids|
  {
    if ids == [] then buf
    else
      var next := IDBytes(ids[0]) + buf[SegIDLen..];
      assert next[SegIDLen..] == buf[SegIDLen..];
      OverwriteFront(next, ids[1..])
  }

  /** As written, only the last segment ID survives, at offset 0. */
  lemma {:induction false} OverwriteFrontLast(buf: seq<byte>, ids: seq<ReservationID>)
    requires |buf| >= SegIDLen && SegmentIDsConsistent(ids) && ids != []
    ensures OverwriteFront(buf, ids) == IDBytes(ids[|ids| - 1]) + buf[SegIDLen..]
    decreases |ids|
  {
    if |ids| > 1 {
      OverwriteFrontLast(IDBytes(ids[0]) + buf[SegIDLen..], ids[1..]);
      assert (IDBytes(ids[0]) + buf[SegIDLen..])[SegIDLen..] == buf[SegIDLen..];
    }
  }

  /** The discrepancy: with at least one segment ID and a first ID that is not all zero
      bytes, the bytes as written differ from the intended ones, since the segment area of
      the former is all zero. */
  lemma AsWrittenDropsSegmentIDs(r: SetupReq, base: seq<byte>)
    requires |base| == IDLen(r.id) + 5 && SegmentIDsConsistent(r.segmentRsvs)
    requires r.segmentRsvs != [] && IDBytes(r.segmentRsvs[0]) != Zeros(SegIDLen)
    ensures ImmutableFieldsAsWritten(r, base) != ImmutableFields(r, base)
  {
    var o := |base| + 49;
    AsWrittenFirstSlotZero(r, base);
    SegmentLayout(r, base, 0);
    assert ImmutableFields(r, base)[o..o + SegIDLen] == IDBytes(r.segmentRsvs[0]);
  }

  /** As written, the slot of the first segment ID stays all zero bytes. */
  lemma AsWrittenFirstSlotZero(r: SetupReq, base: seq<byte>)
    requires |base| == IDLen(r.id) + 5 && SegmentIDsConsistent(r.segmentRsvs) && r.segmentRsvs != []
    ensures var o := |base| + 49;
      |ImmutableFieldsAsWritten(r, base)| >= o + SegIDLen
      && ImmutableFieldsAsWritten(r, base)[o..o + SegIDLen] == Zeros(SegIDLen)
  {
    var o := |base| + 49;
    var n := |r.segmentRsvs| * SegIDLen;
    var fixed := FixedFields(r, base);
    var w := ImmutableFieldsAsWritten(r, base);
    var buf := fixed + Zeros(n);
    OverwriteFrontLast(buf, r.segmentRsvs);
    var last := IDBytes(r.segmentRsvs[|r.segmentRsvs| - 1]);
    assert w == last + buf[SegIDLen..];
    TimesSegIDLenMono(1, |r.segmentRsvs|);
    SliceAfter(fixed, Zeros(n), 0, SegIDLen);
    assert buf[o..o + SegIDLen] == Zeros(n)[..SegIDLen];
    assert buf[SegIDLen..][o - SegIDLen..o] == buf[o..o + SegIDLen];
    SliceAfter(last, buf[SegIDLen..], o - SegIDLen, o);
  }

  /** Writes `src` at offset `|w|` of a buffer holding `w` and then zeros (Go's `copy`
      into `buff[offset:]`). */
  method Put(buff: array<byte>, offset: nat, ghost w: seq<byte>, src: seq<byte>)
    requires offset == |w| && |w| + |src| <= buff.Length && buff[..] == w + Zeros(buff.Length - |w|)
    modifies buff
    ensures buff[..] == (w + src) + Zeros(buff.Length - |w + src|)
  {
    var i := 0;
    while i < |src|
      invariant 0 <= i <= |src|
      invariant buff[..] == (w + src[..i]) + Zeros(buff.Length - |w| - i)
    {
      buff[offset + i] := src[i];
      assert src[..i + 1] == src[..i] + [src[i]];
      i := i + 1;
    }
    assert src[..i] == src;
  }

  /** `SerializeImmutableFields` with each segment ID written at the current offset: nil
      gives nil, an inconsistent segment ID length panics (`Err`), and otherwise a new
      buffer holds the intended immutable fields. `base` stands for the bytes
      `Request.Serialize` writes for the ID, the index and the timestamp. */
  method SerializeImmutableFields(req: Option<SetupReq>, base: seq<byte>) returns (res: Result<Option<array<byte>>, SerializeError>)
    requires req.Some? ==> |base| == IDLen(req.value.id) + 5
    ensures req.None? ==> res == Ok(None)
    ensures req.Some? && FirstInconsistent(req.value.segmentRsvs).Some? ==>
              res == Err(InconsistentIDLength(req.value.segmentRsvs[FirstInconsistent(req.value.segmentRsvs).value]))
    ensures req.Some? && FirstInconsistent(req.value.segmentRsvs).None? ==>
              res.Ok? && res.value.Some? && fresh(res.value.value)
              && res.value.value[..] == ImmutableFields(req.value, base)
  {
    if req.None? {
      return Ok(None);
    }
    var r := req.value;
    var length := IDLen(r.id) + 1 + 4;
    length := length + 8 + 16 + 8 + 16 + 1 + |r.segmentRsvs| * SegIDLen;
    var buff := new byte[length](_ => 0);
    assert buff[..] == Zeros(length);
    var offset := PutFixedFields(buff, r, base);
    var written := PutSegmentIDs(buff, offset, FixedFields(r, base), r.segmentRsvs);
    if written.Fail? {
      return Err(written.error);
    }
    return Ok(Some(buff));
  }

  /** The segment loop (request.go:87-94) with each ID written at `offset`: it stops at
      the first ID of the wrong length, and otherwise leaves the written bytes followed by
      all the segment IDs. */
  method PutSegmentIDs(buff: array<byte>, offset: nat, ghost w: seq<byte>, ids: seq<ReservationID>)
    returns (res: Outcome<SerializeError>)
    requires offset == |w| && buff.Length == |w| + |ids| * SegIDLen
    requires buff[..] == w + Zeros(|ids| * SegIDLen)
    modifies buff
    ensures FirstInconsistent(ids).Some? ==> res == Fail(InconsistentIDLength(ids[FirstInconsistent(ids).value]))
    ensures FirstInconsistent(ids).None? ==> res == Pass && buff[..] == w + SegmentBytes(ids)
  {
    var offset := offset;
    var i := 0;
    ghost var done := w;
    assert ids[..0] == [];
    while i < |ids|
      invariant 0 <= i <= |ids|
      invariant ConsistentUpTo(ids, i)
      invariant done == w + SegmentBytes(ids[..i])
      invariant offset == |done| == |w| + i * SegIDLen
      invariant buff[..] == done + Zeros(buff.Length - offset)
    {
      var id := ids[i];
      if IDLen(id) != SegIDLen {
        FirstInconsistentAt(ids, i);
        return Fail(InconsistentIDLength(id));
      }
      SegmentBytesStep(ids, i);
      ConcatAssoc(w, SegmentBytes(ids[..i]), IDBytes(id));
      ConsistentStep(ids, i);
      TimesSegIDLenSucc(i);
      TimesSegIDLenMono(i + 1, |ids|);
      Put(buff, offset, done, IDBytes(id));
      done := done + IDBytes(id);
      offset := offset + SegIDLen;
      i := i + 1;
    }
    assert ids[..i] == ids;
    return Pass;
  }

  /** The writes before the segment loop (request.go:74-86), into a zeroed buffer; the
      new offset is returned. */
  method PutFixedFields(buff: array<byte>, r: SetupReq, base: seq<byte>) returns (offset: nat)
    requires |base| == IDLen(r.id) + 5 && |base| + 49 <= buff.Length
    requires buff[..] == Zeros(buff.Length)
    modifies buff
    ensures offset == |FixedFields(r, base)| == |base| + 49
    ensures buff[..] == FixedFields(r, base) + Zeros(buff.Length - offset)
  {
    assert buff[..] == [] + Zeros(buff.Length);
    Put(buff, 0, [], base);
    assert [] + base == base;
    offset := IDLen(r.id) + 1 + 4;
    ghost var w := base;
    Put(buff, offset, w, BigEndian(r.srcIA as nat, 8));
    w, offset := w + BigEndian(r.srcIA as nat, 8), offset + 8;
    Put(buff, offset, w, Host16(r.srcHost));
    w, offset := w + Host16(r.srcHost), offset + 16;
    Put(buff, offset, w, BigEndian(r.dstIA as nat, 8));
    w, offset := w + BigEndian(r.dstIA as nat, 8), offset + 8;
    Put(buff, offset, w, Host16(r.dstHost));
    w, offset := w + Host16(r.dstHost), offset + 16;
    Put(buff, offset, w, [r.requestedBW as byte]);
    w, offset := w + [r.requestedBW as byte], offset + 1;
  }

  /** The first `i` segment IDs have the length `ID.Read` must report. */
  predicate ConsistentUpTo(ids: seq<ReservationID>, i: nat)
    requires i <= |ids|
  {
    forall k :: 0 <= k < i ==> IDLen(ids[k]) == SegIDLen
  }

  lemma ConsistentStep(ids: seq<ReservationID>, i: nat)
    requires i < |ids| && ConsistentUpTo(ids, i) && IDLen(ids[i]) == SegIDLen
    ensures ConsistentUpTo(ids, i + 1)
  {
  }

  /** A scan that meets its first inconsistent ID at `i` has found `FirstInconsistent`. */
  lemma {:induction false} FirstInconsistentAt(ids: seq<ReservationID>, i: nat)
    requires i < |ids| && IDLen(ids[i]) != SegIDLen && ConsistentUpTo(ids, i)
    ensures FirstInconsistent(ids) == Some(i)
    decreases i
  {
    if i > 0 {
      assert IDLen(ids[0]) == SegIDLen;
      FirstInconsistentAt(ids[1..], i - 1);
    }
  }

  /** One more segment ID appends its bytes. */
  lemma SegmentBytesStep(ids: seq<ReservationID>, i: nat)
    requires i < |ids|
    ensures SegmentBytes(ids[..i + 1]) == SegmentBytes(ids[..i]) + IDBytes(ids[i])
  {
    assert ids[..i + 1][..i] == ids[..i];
  }
}
