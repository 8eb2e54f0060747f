/**
 The decoders of the program's accounts, which read little-endian fields at fixed offsets.

 Each decoder is paired with a writer that puts a value into a buffer, at the documented offsets, and
 leaves every other byte alone. What is written is read back, whatever the buffer held in its padding,
 its unused recipient slots and behind the account; and writing back what was read changes nothing.
 */
module AccountLayouts {

  import opened Wrappers

  type byte = b: int | 0 <= b < 0x100
  type u16 = n: int | 0 <= n < 0x1_0000
  type u32 = n: int | 0 <= n < 0x1_0000_0000
  type u64 = n: int | 0 <= n < 0x1_0000_0000_0000_0000
  type i64 = n: int | -0x8000_0000_0000_0000 <= n < 0x8000_0000_0000_0000

  type Bytes = seq<byte>

  // A public key; the decoders render the 32 bytes in base 58.
  type Pubkey = b: Bytes | |b| == 32 witness seq(32, _ => 0)
  type Bytes16 = b: Bytes | |b| == 16 witness seq(16, _ => 0)

  datatype DecodeError =
    | TooShort(need: int, got: int)
    | UnknownKind(kind: int)
    | UnknownStatus(status: int)
    | TooManyRecipients(count: int)

  // ---------------------------------------------------------------------------------------------
  // Reading and writing a field
  // ---------------------------------------------------------------------------------------------

  function Field(b: Bytes, offset: nat, width: nat): (f: Bytes)
    requires offset + width <= |b|
    ensures |f| == width
  {
    b[offset..offset + width]
  }

  function Put(b: Bytes, offset: nat, f: Bytes): (r: Bytes)
    requires offset + |f| <= |b|
    ensures |r| == |b| && Field(r, offset, |f|) == f
    ensures forall o: nat, w: nat ::
          o + w <= |b| && (o + w <= offset || offset + |f| <= o) ==> Field(r, o, w) == Field(b, o, w)
    ensures f == Field(b, offset, |f|) ==> r == b
  {
    var r := b[..offset] + f + b[offset + |f|..];
    assert forall o: nat, w: nat ::
          o + w <= |b| && (o + w <= offset || offset + |f| <= o) ==> Field(r, o, w) == Field(b, o, w);
    r
  }

  // The little-endian number.
  function Uint(b: Bytes): nat {
    if b == [] then 0 else b[0] + 0x100 * Uint(b[1..])
  }

  function LE(n: nat, width: nat): (b: Bytes)
    ensures |b| == width
  {
    if width == 0 then [] else [n % 0x100] + LE(n / 0x100, width - 1)
  }

  ghost function Pow256(width: nat): nat {
    if width == 0 then 1 else 0x100 * Pow256(width - 1)
  }

  lemma {:induction false} UintOfLE(n: nat, width: nat)
    requires n < Pow256(width)
    ensures Uint(LE(n, width)) == n
  {
    if width != 0 {
      assert n / 0x100 < Pow256(width - 1);
      UintOfLE(n / 0x100, width - 1);
      assert LE(n, width)[1..] == LE(n / 0x100, width - 1);
    }
  }

  lemma LowByte(low: byte, high: nat)
    ensures (low + 0x100 * high) % 0x100 == low && (low + 0x100 * high) / 0x100 == high
  {
  }

  lemma {:induction false} LEOfUint(b: Bytes)
    ensures Uint(b) < Pow256(|b|) && LE(Uint(b), |b|) == b
  {
    if b != [] {
      LEOfUint(b[1..]);
      LowByte(b[0], Uint(b[1..]));
      assert b == [b[0]] + b[1..];
    }
  }

  lemma PowValues()
    ensures Pow256(2) == 0x1_0000 && Pow256(4) == 0x1_0000_0000 && Pow256(8) == 0x1_0000_0000_0000_0000
  {
    assert Pow256(2) == 0x100 * Pow256(1) == 0x100 * (0x100 * Pow256(0));
    assert Pow256(4) == 0x100 * Pow256(3) == 0x100 * (0x100 * Pow256(2));
    assert Pow256(6) == 0x100 * Pow256(5) == 0x100 * (0x100 * Pow256(4));
    assert Pow256(8) == 0x100 * Pow256(7) == 0x100 * (0x100 * Pow256(6));
  }

  lemma DivTwice(n: nat)
    ensures n / 0x100 / 0x100 == n / 0x1_0000 && n / 0x1_0000 / 0x100 == n / 0x100_0000
    ensures n / 0x100_0000 / 0x100 == n / 0x1_0000_0000
  {
  }

  lemma LEUnrolled(n: nat, width: nat)
    requires 4 <= width
    ensures LE(n, width) == [n % 0x100, n / 0x100 % 0x100, n / 0x1_0000 % 0x100, n / 0x100_0000 % 0x100]
                            + LE(n / 0x1_0000_0000, width - 4)
  {
    DivTwice(n);
    assert LE(n, width) == [n % 0x100] + LE(n / 0x100, width - 1);
    assert LE(n / 0x100, width - 1) == [n / 0x100 % 0x100] + LE(n / 0x1_0000, width - 2);
    assert LE(n / 0x1_0000, width - 2) == [n / 0x1_0000 % 0x100] + LE(n / 0x100_0000, width - 3);
    assert LE(n / 0x100_0000, width - 3) == [n / 0x100_0000 % 0x100] + LE(n / 0x1_0000_0000, width - 4);
  }

  // Two's complement of a 64-bit number.
  function Signed(n: u64): i64 {
    if n < 0x8000_0000_0000_0000 then n else n - 0x1_0000_0000_0000_0000
  }

  function Unsigned(n: i64): (u: u64)
    ensures Signed(u) == n
  {
    if 0 <= n then n else n + 0x1_0000_0000_0000_0000
  }

  function ReadU16(b: Bytes, offset: nat): (n: u16)
    requires offset + 2 <= |b|
    ensures LE(n, 2) == Field(b, offset, 2)
  {
    LEOfUint(Field(b, offset, 2));
    PowValues();
    Uint(Field(b, offset, 2))
  }

  function ReadU32(b: Bytes, offset: nat): (n: u32)
    requires offset + 4 <= |b|
    ensures LE(n, 4) == Field(b, offset, 4)
  {
    LEOfUint(Field(b, offset, 4));
    PowValues();
    Uint(Field(b, offset, 4))
  }

  function ReadU64(b: Bytes, offset: nat): (n: u64)
    requires offset + 8 <= |b|
    ensures LE(n, 8) == Field(b, offset, 8)
  {
    LEOfUint(Field(b, offset, 8));
    PowValues();
    Uint(Field(b, offset, 8))
  }

  function ReadI64(b: Bytes, offset: nat): (n: i64)
    requires offset + 8 <= |b|
    ensures LE(Unsigned(n), 8) == Field(b, offset, 8)
  {
    Signed(ReadU64(b, offset))
  }

  function ReadU8(b: Bytes, offset: nat): (n: byte)
    requires offset < |b|
    ensures [n] == Field(b, offset, 1)
  {
    b[offset]
  }

  function ReadPubkey(b: Bytes, offset: nat): (k: Pubkey)
    requires offset + 32 <= |b|
    ensures k == Field(b, offset, 32)
  {
    b[offset..offset + 32]
  }

  // The fields that these numbers are written to.
  function U16(n: u16): (f: Bytes)
    ensures |f| == 2 && Uint(f) == n
  {
    PowValues();
    UintOfLE(n, 2);
    LE(n, 2)
  }

  function U32(n: u32): (f: Bytes)
    ensures |f| == 4 && Uint(f) == n
  {
    PowValues();
    UintOfLE(n, 4);
    LE(n, 4)
  }

  function U64(n: u64): (f: Bytes)
    ensures |f| == 8 && Uint(f) == n
  {
    PowValues();
    UintOfLE(n, 8);
    LE(n, 8)
  }

  function I64(n: i64): (f: Bytes)
    ensures |f| == 8 && Uint(f) < 0x1_0000_0000_0000_0000 && Signed(Uint(f)) == n
  {
    U64(Unsigned(n))
  }

  function Flag(on: bool): (f: Bytes)
    ensures |f| == 1 && (f[0] != 0 <==> on)
  {
    [if on then 1 else 0]
  }

  /** Byte order: the least significant byte comes first. */
  lemma ByteOrder(n: u16, m: u32, k: u64)
    ensures U16(n) == [n % 0x100, n / 0x100]
    ensures U32(m) == [m % 0x100, m / 0x100 % 0x100, m / 0x1_0000 % 0x100, m / 0x100_0000]
    ensures U64(k) == [k % 0x100, k / 0x100 % 0x100, k / 0x1_0000 % 0x100, k / 0x100_0000 % 0x100]
                      + U32(k / 0x1_0000_0000)
  {
    assert LE(n, 2) == [n % 0x100] + LE(n / 0x100, 1) && LE(n / 0x100, 1) == [n / 0x100 % 0x100] + LE(0, 0);
    LEUnrolled(m, 4);
    LEUnrolled(k, 8);
  }

  // Reading the first bytes of a file is reading some of them, and then the next field.
  lemma NextField(b: Bytes, offset: nat, width: nat)
    requires offset + width <= |b|
    ensures b[..offset + width] == b[..offset] + Field(b, offset, width)
  {
  }

  // ---------------------------------------------------------------------------------------------
  // Fee recipients: 48 bytes each
  // ---------------------------------------------------------------------------------------------

  const FEE_RECIPIENT_LEN := 48
  const MAX_FEE_RECIPIENTS := 8

  datatype FeeRecipient = FeeRecipient(kind: byte, destination: Pubkey, bps: u16)

  function DecodeFeeRecipient(b: Bytes, offset: nat): Result<FeeRecipient, DecodeError> {
    if |b| < offset + FEE_RECIPIENT_LEN then Err(TooShort(FEE_RECIPIENT_LEN, |b| - offset))
    else if ReadU8(b, offset) > 2 then Err(UnknownKind(ReadU8(b, offset)))
    else Ok(FeeRecipient(ReadU8(b, offset), ReadPubkey(b, offset + 8), ReadU16(b, offset + 40)))
  }

  function PutFeeRecipient(b: Bytes, offset: nat, r: FeeRecipient): (c: Bytes)
    requires offset + FEE_RECIPIENT_LEN <= |b|
    ensures |c| == |b|
  {
    Put(Put(Put(b, offset, [r.kind]), offset + 8, r.destination), offset + 40, U16(r.bps))
  }

  // Slots count..i-1 of the array, from the front.
  function DecodeRecipientsFrom(b: Bytes, base: nat, count: nat, i: nat): Result<seq<FeeRecipient>, DecodeError>
    requires i <= count
    decreases count - i
  {
    if i == count then Ok([])
    else
      match DecodeFeeRecipient(b, base + i * FEE_RECIPIENT_LEN)
      case Err(e) => Err(e)
      case Ok(r) =>
        match DecodeRecipientsFrom(b, base, count, i + 1)
        case Err(e) => Err(e)
        case Ok(rs) => Ok([r] + rs)
  }

  function DecodeRecipients(b: Bytes, base: nat, count: nat): Result<seq<FeeRecipient>, DecodeError> {
    if count > MAX_FEE_RECIPIENTS then Err(TooManyRecipients(count)) else DecodeRecipientsFrom(b, base, count, 0)
  }

  ghost predicate SlotOk(b: Bytes, base: nat, k: nat) {
    DecodeFeeRecipient(b, base + k * FEE_RECIPIENT_LEN).Ok?
  }

  // Decoding succeeds iff every active slot does.
  lemma {:induction false} DecodeFromMeaning(b: Bytes, base: nat, count: nat, i: nat)
    requires i <= count
    ensures var d := DecodeRecipientsFrom(b, base, count, i);
            && (d.Ok? <==> forall k :: i <= k < count ==> SlotOk(b, base, k))
            && (d.Ok? ==> |d.value| == count - i
                          && forall k :: i <= k < count
                                ==> DecodeFeeRecipient(b, base + k * FEE_RECIPIENT_LEN) == Ok(d.value[k - i]))
    decreases count - i
  {
    if i < count {
      DecodeFromMeaning(b, base, count, i + 1);
      assert SlotOk(b, base, i) <==> DecodeFeeRecipient(b, base + i * FEE_RECIPIENT_LEN).Ok?;
    }
  }

  // The loop of the decoder.
  method DecodeFeeRecipientArray(b: Bytes, base: nat, count: nat) returns (r: Result<seq<FeeRecipient>, DecodeError>)
    ensures r == DecodeRecipients(b, base, count)
  {
    if count > MAX_FEE_RECIPIENTS { return Err(TooManyRecipients(count)); }
    var out: seq<FeeRecipient> := [];
    assert forall rs: seq<FeeRecipient> :: out + rs == rs;
    for i := 0 to count
      invariant DecodeRecipients(b, base, count)
             == match DecodeRecipientsFrom(b, base, count, i) case Ok(rs) => Ok(out + rs) case Err(e) => Err(e)
    {
      var entry := DecodeFeeRecipient(b, base + i * FEE_RECIPIENT_LEN);
      if entry.Err? { return Err(entry.error); }
      ghost var done := out;
      out := out + [entry.value];
      assert forall rs: seq<FeeRecipient> :: done + ([entry.value] + rs) == out + rs;
    }
    assert out + [] == out;
    r := Ok(out);
  }

  // The first |rs| slots of the array.
  function PutRecipients(b: Bytes, base: nat, rs: seq<FeeRecipient>): (c: Bytes)
    requires base + |rs| * FEE_RECIPIENT_LEN <= |b|
    ensures |c| == |b|
  {
    if rs == [] then b
    else
      var n := |rs| - 1;
      PutFeeRecipient(PutRecipients(b, base, rs[..n]), base + n * FEE_RECIPIENT_LEN, rs[n])
  }

  ghost predicate KindsLegal(rs: seq<FeeRecipient>) {
    forall r :: r in rs ==> r.kind <= 2
  }

  // The two laws of one slot.
  lemma FeeRecipientLaws(b: Bytes, offset: nat, r: FeeRecipient)
    requires offset + FEE_RECIPIENT_LEN <= |b|
    ensures r.kind <= 2 ==> DecodeFeeRecipient(PutFeeRecipient(b, offset, r), offset) == Ok(r)
    ensures DecodeFeeRecipient(b, offset) == Ok(r) ==> PutFeeRecipient(b, offset, r) == b
  {
    var b1 := Put(b, offset, [r.kind]);
    var b2 := Put(b1, offset + 8, r.destination);
    var b3 := Put(b2, offset + 40, U16(r.bps));
    assert Field(b3, offset, 1) == Field(b2, offset, 1) == Field(b1, offset, 1) == [r.kind];
    assert Field(b3, offset + 8, 32) == Field(b2, offset + 8, 32) == r.destination;
    assert Field(b3, offset + 40, 2) == U16(r.bps);
    if DecodeFeeRecipient(b, offset) == Ok(r) {
      LEOfUint(Field(b, offset + 40, 2));
    }
  }

  // The numbers written are the bytes that were read.
  lemma FieldsReadBack(b: Bytes)
    ensures forall o: nat :: o + 2 <= |b| ==> U16(ReadU16(b, o)) == Field(b, o, 2)
    ensures forall o: nat :: o + 4 <= |b| ==> U32(ReadU32(b, o)) == Field(b, o, 4)
    ensures forall o: nat :: o + 8 <= |b| ==> U64(ReadU64(b, o)) == Field(b, o, 8)
    ensures forall o: nat :: o + 8 <= |b| ==> I64(ReadI64(b, o)) == Field(b, o, 8)
  {
  }

  lemma FieldWithin(b: Bytes, offset: nat, width: nat, o: nat, w: nat)
    requires offset + width <= |b| && o + w <= width
    ensures Field(Field(b, offset, width), o, w) == Field(b, offset + o, w)
  {
    var f, g := Field(Field(b, offset, width), o, w), Field(b, offset + o, w);
    forall k | 0 <= k < w
      ensures f[k] == g[k]
    {
      assert f[k] == b[offset..offset + width][o + k] == b[offset + o + k];
    }
  }

  /** The 48 bytes of a slot: kind, 7 bytes of padding, destination, bps, 6 bytes of padding. */
  lemma FeeRecipientBytes(b: Bytes, offset: nat, r: FeeRecipient)
    requires DecodeFeeRecipient(b, offset) == Ok(r)
    ensures offset + 48 <= |b|
    ensures b[offset..offset + 48]
         == [r.kind] + Field(b, offset + 1, 7) + r.destination + U16(r.bps) + Field(b, offset + 42, 6)
  {
    FieldsReadBack(b);
    FieldWithin(b, offset, 48, 0, 1);
    FieldWithin(b, offset, 48, 1, 7);
    FieldWithin(b, offset, 48, 8, 32);
    FieldWithin(b, offset, 48, 40, 2);
    FieldWithin(b, offset, 48, 42, 6);
    var f := Field(b, offset, 48);
    assert f == Field(f, 0, 1) + Field(f, 1, 7) + Field(f, 8, 32) + Field(f, 40, 2) + Field(f, 42, 6);
  }

  // A slot write leaves everything outside its 48 bytes alone.
  lemma PutFeeRecipientKeeps(b: Bytes, offset: nat, r: FeeRecipient, o: nat, w: nat)
    requires offset + FEE_RECIPIENT_LEN <= |b| && o + w <= |b|
    requires o + w <= offset || offset + FEE_RECIPIENT_LEN <= o
    ensures Field(PutFeeRecipient(b, offset, r), o, w) == Field(b, o, w)
  {
    var b1 := Put(b, offset, [r.kind]);
    var b2 := Put(b1, offset + 8, r.destination);
    assert Field(b2, o, w) == Field(b1, o, w) == Field(b, o, w);
  }

  lemma {:induction false} PutRecipientsKeeps(b: Bytes, base: nat, rs: seq<FeeRecipient>, o: nat, w: nat)
    requires base + |rs| * FEE_RECIPIENT_LEN <= |b| && o + w <= |b|
    requires o + w <= base || base + |rs| * FEE_RECIPIENT_LEN <= o
    ensures Field(PutRecipients(b, base, rs), o, w) == Field(b, o, w)
  {
    if rs != [] {
      var n := |rs| - 1;
      PutRecipientsKeeps(b, base, rs[..n], o, w);
      PutFeeRecipientKeeps(PutRecipients(b, base, rs[..n]), base + n * FEE_RECIPIENT_LEN, rs[n], o, w);
    }
  }

  // Equal fields have equal parts.
  lemma SubField(b: Bytes, c: Bytes, offset: nat, width: nat, o: nat, w: nat)
    requires offset + width <= |b| && |b| == |c| && o + w <= width && Field(b, offset, width) == Field(c, offset, width)
    ensures Field(b, offset + o, w) == Field(c, offset + o, w)
  {
    FieldWithin(b, offset, width, o, w);
    FieldWithin(c, offset, width, o, w);
  }

  lemma SlotUnchanged(b: Bytes, c: Bytes, offset: nat)
    requires |b| == |c| && offset + FEE_RECIPIENT_LEN <= |b|
    requires Field(b, offset, FEE_RECIPIENT_LEN) == Field(c, offset, FEE_RECIPIENT_LEN)
    ensures DecodeFeeRecipient(b, offset) == DecodeFeeRecipient(c, offset)
  {
    SubField(b, c, offset, FEE_RECIPIENT_LEN, 0, 1);
    SubField(b, c, offset, FEE_RECIPIENT_LEN, 8, 32);
    SubField(b, c, offset, FEE_RECIPIENT_LEN, 40, 2);
  }

  // Later writes leave slot k alone.
  lemma {:induction false} SlotKept(b: Bytes, base: nat, rs: seq<FeeRecipient>, k: nat)
    requires base + |rs| * FEE_RECIPIENT_LEN <= |b| && k < |rs|
    ensures Field(PutRecipients(b, base, rs), base + k * FEE_RECIPIENT_LEN, FEE_RECIPIENT_LEN)
         == Field(PutRecipients(b, base, rs[..k + 1]), base + k * FEE_RECIPIENT_LEN, FEE_RECIPIENT_LEN)
  {
    var n := |rs| - 1;
    if k < n {
      SlotKept(b, base, rs[..n], k);
      assert rs[..n][..k + 1] == rs[..k + 1];
      PutFeeRecipientKeeps(PutRecipients(b, base, rs[..n]), base + n * FEE_RECIPIENT_LEN, rs[n],
                           base + k * FEE_RECIPIENT_LEN, FEE_RECIPIENT_LEN);
    } else {
      assert rs[..k + 1] == rs;
    }
  }

  lemma LastSlotRead(b: Bytes, base: nat, rs: seq<FeeRecipient>)
    requires base + |rs| * FEE_RECIPIENT_LEN <= |b| && rs != [] && rs[|rs| - 1].kind <= 2
    ensures var n := |rs| - 1;
            DecodeFeeRecipient(PutRecipients(b, base, rs), base + n * FEE_RECIPIENT_LEN) == Ok(rs[n])
  {
    var n := |rs| - 1;
    FeeRecipientLaws(PutRecipients(b, base, rs[..n]), base + n * FEE_RECIPIENT_LEN, rs[n]);
  }

  // What is written into slot k is read from slot k.
  lemma SlotRead(b: Bytes, base: nat, rs: seq<FeeRecipient>, k: nat)
    requires base + |rs| * FEE_RECIPIENT_LEN <= |b| && KindsLegal(rs) && k < |rs|
    ensures DecodeFeeRecipient(PutRecipients(b, base, rs), base + k * FEE_RECIPIENT_LEN) == Ok(rs[k])
  {
    assert rs[k] in rs;
    SlotKept(b, base, rs, k);
    LastSlotRead(b, base, rs[..k + 1]);
    SlotUnchanged(PutRecipients(b, base, rs), PutRecipients(b, base, rs[..k + 1]), base + k * FEE_RECIPIENT_LEN);
  }

  lemma {:induction false} DecodeFromOk(b: Bytes, base: nat, rs: seq<FeeRecipient>, i: nat)
    requires i <= |rs| && forall k :: 0 <= k < |rs| ==> DecodeFeeRecipient(b, base + k * FEE_RECIPIENT_LEN) == Ok(rs[k])
    ensures DecodeRecipientsFrom(b, base, |rs|, i) == Ok(rs[i..])
    decreases |rs| - i
  {
    if i < |rs| {
      DecodeFromOk(b, base, rs, i + 1);
      assert rs[i..] == [rs[i]] + rs[i + 1..];
    }
  }

  /** The array of recipients: what is written is read back. */
  lemma RecipientsReadBack(b: Bytes, base: nat, rs: seq<FeeRecipient>)
    requires base + |rs| * FEE_RECIPIENT_LEN <= |b| && KindsLegal(rs) && |rs| <= MAX_FEE_RECIPIENTS
    ensures DecodeRecipients(PutRecipients(b, base, rs), base, |rs|) == Ok(rs)
  {
    forall k | 0 <= k < |rs|
      ensures DecodeFeeRecipient(PutRecipients(b, base, rs), base + k * FEE_RECIPIENT_LEN) == Ok(rs[k])
    {
      SlotRead(b, base, rs, k);
    }
    DecodeFromOk(PutRecipients(b, base, rs), base, rs, 0);
    assert rs[0..] == rs;
  }

  lemma {:induction false} PutSlotsBack(b: Bytes, base: nat, rs: seq<FeeRecipient>)
    requires base + |rs| * FEE_RECIPIENT_LEN <= |b|
    requires forall k :: 0 <= k < |rs| ==> DecodeFeeRecipient(b, base + k * FEE_RECIPIENT_LEN) == Ok(rs[k])
    ensures PutRecipients(b, base, rs) == b
  {
    if rs != [] {
      var n := |rs| - 1;
      PutSlotsBack(b, base, rs[..n]);
      FeeRecipientLaws(b, base + n * FEE_RECIPIENT_LEN, rs[n]);
    }
  }

  /** ... and writing back what was read changes nothing. */
  lemma RecipientsWriteBack(b: Bytes, base: nat, count: nat)
    requires DecodeRecipients(b, base, count).Ok? && base + count * FEE_RECIPIENT_LEN <= |b|
    ensures var rs := DecodeRecipients(b, base, count).value;
            |rs| == count <= MAX_FEE_RECIPIENTS && PutRecipients(b, base, rs) == b && KindsLegal(rs)
  {
    DecodeFromMeaning(b, base, count, 0);
    PutSlotsBack(b, base, DecodeRecipients(b, base, count).value);
  }

  // ---------------------------------------------------------------------------------------------
  // CoveragePool: 160 bytes
  // ---------------------------------------------------------------------------------------------

  const COVERAGE_POOL_LEN := 160

  datatype CoveragePool = CoveragePool(
    bump: byte, authority: Pubkey, usdcMint: Pubkey, usdcVault: Pubkey, endpointSlug: Bytes16,
    totalDeposits: u64, totalPremiums: u64, totalRefunds: u64, currentBalance: u64, createdAt: i64)

  function DecodeCoveragePool(b: Bytes): Result<CoveragePool, DecodeError> {
    if |b| < COVERAGE_POOL_LEN then Err(TooShort(COVERAGE_POOL_LEN, |b|))
    else Ok(CoveragePool(
      ReadU8(b, 0), ReadPubkey(b, 8), ReadPubkey(b, 40), ReadPubkey(b, 72), Field(b, 104, 16),
      ReadU64(b, 120), ReadU64(b, 128), ReadU64(b, 136), ReadU64(b, 144), ReadI64(b, 152)))
  }

  function PutCoveragePool(b: Bytes, x: CoveragePool): (c: Bytes)
    requires COVERAGE_POOL_LEN <= |b|
    ensures |c| == |b|
  {
    var b := Put(b, 0, [x.bump]);
    var b := Put(b, 8, x.authority);
    var b := Put(b, 40, x.usdcMint);
    var b := Put(b, 72, x.usdcVault);
    var b := Put(b, 104, x.endpointSlug);
    var b := Put(b, 120, U64(x.totalDeposits));
    var b := Put(b, 128, U64(x.totalPremiums));
    var b := Put(b, 136, U64(x.totalRefunds));
    var b := Put(b, 144, U64(x.currentBalance));
    Put(b, 152, I64(x.createdAt))
  }

  /** Reading a written pool gives it back, and writing back what was read changes nothing. */
  lemma CoveragePoolLaws(b: Bytes, x: CoveragePool)
    requires 160 <= |b|
    ensures DecodeCoveragePool(PutCoveragePool(b, x)) == Ok(x)
    ensures DecodeCoveragePool(b) == Ok(x) ==> PutCoveragePool(b, x) == b
  {
    if DecodeCoveragePool(b) == Ok(x) {
      FieldsReadBack(b);
    }
  }

  /** The fields of the account in their order, with their paddings. */
  lemma CoveragePoolBytes(b: Bytes, x: CoveragePool)
    requires DecodeCoveragePool(b) == Ok(x)
    ensures b[..160]
         == [x.bump] + Field(b, 1, 7) + x.authority + x.usdcMint + x.usdcVault + x.endpointSlug
            + U64(x.totalDeposits) + U64(x.totalPremiums) + U64(x.totalRefunds) + U64(x.currentBalance)
            + I64(x.createdAt)
  {
    FieldsReadBack(b);
    assert b[..0] == [];
    NextField(b, 0, 1);
    NextField(b, 1, 7);
    NextField(b, 8, 32);
    NextField(b, 40, 32);
    NextField(b, 72, 32);
    NextField(b, 104, 16);
    NextField(b, 120, 8);
    NextField(b, 128, 8);
    NextField(b, 136, 8);
    NextField(b, 144, 8);
    NextField(b, 152, 8);
  }

  // ---------------------------------------------------------------------------------------------
  // EndpointConfig: 544 bytes
  // ---------------------------------------------------------------------------------------------

  const ENDPOINT_CONFIG_LEN := 544

  datatype EndpointConfig = EndpointConfig(
    bump: byte, paused: bool, slug: Bytes16, flatPremiumLamports: u64, percentBps: u16, slaLatencyMs: u32,
    imputedCostLamports: u64, exposureCapPerHourLamports: u64, currentPeriodStart: i64, currentPeriodRefunds: u64,
    totalCalls: u64, totalBreaches: u64, totalPremiums: u64, totalRefunds: u64, lastUpdated: i64,
    coveragePool: Pubkey, feeRecipientCount: byte, feeRecipients: seq<FeeRecipient>)

  function DecodeEndpointConfig(b: Bytes): Result<EndpointConfig, DecodeError> {
    if |b| < ENDPOINT_CONFIG_LEN then Err(TooShort(ENDPOINT_CONFIG_LEN, |b|))
    else
      var count := ReadU8(b, 152);
      match DecodeRecipients(b, 160, count)
      case Err(e) => Err(e)
      case Ok(rs) => Ok(EndpointConfig(
        ReadU8(b, 0), ReadU8(b, 1) != 0, Field(b, 8, 16), ReadU64(b, 24), ReadU16(b, 32), ReadU32(b, 40),
        ReadU64(b, 48), ReadU64(b, 56), ReadI64(b, 64), ReadU64(b, 72),
        ReadU64(b, 80), ReadU64(b, 88), ReadU64(b, 96), ReadU64(b, 104), ReadI64(b, 112),
        ReadPubkey(b, 120), count, rs))
  }

  // The fields before and behind the recipients, which come last.
  function PutEndpointHead(b: Bytes, x: EndpointConfig): (c: Bytes)
    requires ENDPOINT_CONFIG_LEN <= |b|
    ensures |c| == |b|
  {
    var b := Put(b, 0, [x.bump]);
    var b := Put(b, 1, Flag(x.paused));
    var b := Put(b, 8, x.slug);
    var b := Put(b, 24, U64(x.flatPremiumLamports));
    var b := Put(b, 32, U16(x.percentBps));
    var b := Put(b, 40, U32(x.slaLatencyMs));
    var b := Put(b, 48, U64(x.imputedCostLamports));
    var b := Put(b, 56, U64(x.exposureCapPerHourLamports));
    var b := Put(b, 64, I64(x.currentPeriodStart));
    var b := Put(b, 72, U64(x.currentPeriodRefunds));
    var b := Put(b, 80, U64(x.totalCalls));
    var b := Put(b, 88, U64(x.totalBreaches));
    var b := Put(b, 96, U64(x.totalPremiums));
    var b := Put(b, 104, U64(x.totalRefunds));
    var b := Put(b, 112, I64(x.lastUpdated));
    var b := Put(b, 120, x.coveragePool);
    Put(b, 152, [x.feeRecipientCount])
  }

  function PutEndpointConfig(b: Bytes, x: EndpointConfig): (c: Bytes)
    requires ENDPOINT_CONFIG_LEN <= |b| && |x.feeRecipients| <= MAX_FEE_RECIPIENTS
    ensures |c| == |b|
  {
    PutRecipients(PutEndpointHead(b, x), 160, x.feeRecipients)
  }

  // What the recipient slots say, a reader of the head does not see.
  lemma HeadKept(b: Bytes, base: nat, rs: seq<FeeRecipient>)
    requires base + |rs| * FEE_RECIPIENT_LEN <= |b|
    ensures forall o: nat, w: nat :: o + w <= base ==> Field(PutRecipients(b, base, rs), o, w) == Field(b, o, w)
  {
    forall o: nat, w: nat | o + w <= base
      ensures Field(PutRecipients(b, base, rs), o, w) == Field(b, o, w)
    {
      PutRecipientsKeeps(b, base, rs, o, w);
    }
  }

  // The head of the account holds the value's fields.
  ghost predicate HeadSays(b: Bytes, x: EndpointConfig)
    requires 160 <= |b|
  {
    && ReadU8(b, 0) == x.bump && (ReadU8(b, 1) != 0 <==> x.paused) && Field(b, 8, 16) == x.slug
    && ReadU64(b, 24) == x.flatPremiumLamports && ReadU16(b, 32) == x.percentBps && ReadU32(b, 40) == x.slaLatencyMs
    && ReadU64(b, 48) == x.imputedCostLamports && ReadU64(b, 56) == x.exposureCapPerHourLamports
    && ReadI64(b, 64) == x.currentPeriodStart && ReadU64(b, 72) == x.currentPeriodRefunds
    && ReadU64(b, 80) == x.totalCalls && ReadU64(b, 88) == x.totalBreaches && ReadU64(b, 96) == x.totalPremiums
    && ReadU64(b, 104) == x.totalRefunds && ReadI64(b, 112) == x.lastUpdated
    && ReadPubkey(b, 120) == x.coveragePool && ReadU8(b, 152) == x.feeRecipientCount
  }

  lemma HeadReadBack(b: Bytes, x: EndpointConfig)
    requires ENDPOINT_CONFIG_LEN <= |b|
    ensures HeadSays(PutEndpointHead(b, x), x)
  {
  }

  lemma HeadWriteBack(b: Bytes, x: EndpointConfig)
    requires ENDPOINT_CONFIG_LEN <= |b| && HeadSays(b, x) && b[1] <= 1
    ensures PutEndpointHead(b, x) == b
  {
    FieldsReadBack(b);
    assert Flag(x.paused) == Field(b, 1, 1);
  }

  lemma HeadUnchanged(b: Bytes, c: Bytes, x: EndpointConfig)
    requires 160 <= |b| == |c| && HeadSays(b, x)
    requires forall o: nat, w: nat :: o + w <= 160 ==> Field(c, o, w) == Field(b, o, w)
    ensures HeadSays(c, x)
  {
  }

  lemma DecodedAsSaid(b: Bytes, x: EndpointConfig)
    requires ENDPOINT_CONFIG_LEN <= |b| && HeadSays(b, x)
    requires DecodeRecipients(b, 160, x.feeRecipientCount) == Ok(x.feeRecipients)
    ensures DecodeEndpointConfig(b) == Ok(x)
  {
  }

  lemma EndpointReadBack(b: Bytes, head: Bytes, x: EndpointConfig)
    requires ENDPOINT_CONFIG_LEN <= |b| && head == PutEndpointHead(b, x)
    requires |x.feeRecipients| == x.feeRecipientCount <= MAX_FEE_RECIPIENTS && KindsLegal(x.feeRecipients)
    ensures DecodeEndpointConfig(PutRecipients(head, 160, x.feeRecipients)) == Ok(x)
  {
    var c := PutRecipients(head, 160, x.feeRecipients);
    assert HeadSays(c, x) by {
      HeadReadBack(b, x);
      HeadKept(head, 160, x.feeRecipients);
      HeadUnchanged(head, c, x);
    }
    RecipientsReadBack(head, 160, x.feeRecipients);
    DecodedAsSaid(c, x);
  }

  /**
   An endpoint is read back as it was written, whatever the buffer held in its padding, its unused
   slots and behind the account. Writing back what was read changes nothing, except that a paused byte
   above 1 becomes 1.
   */
  lemma EndpointConfigLaws(b: Bytes, x: EndpointConfig)
    requires 544 <= |b|
    requires |x.feeRecipients| == x.feeRecipientCount <= 8
    ensures KindsLegal(x.feeRecipients) ==> DecodeEndpointConfig(PutEndpointConfig(b, x)) == Ok(x)
    ensures DecodeEndpointConfig(b) == Ok(x) && b[1] <= 1 ==> PutEndpointConfig(b, x) == b
  {
    if KindsLegal(x.feeRecipients) {
      EndpointReadBack(b, PutEndpointHead(b, x), x);
    }
    if DecodeEndpointConfig(b) == Ok(x) && b[1] <= 1 {
      HeadWriteBack(b, x);
      RecipientsWriteBack(b, 160, x.feeRecipientCount);
    }
  }

  lemma DecodableSlots(b: Bytes, base: nat, count: nat)
    requires base + MAX_FEE_RECIPIENTS * FEE_RECIPIENT_LEN <= |b|
    ensures DecodeRecipients(b, base, count).Ok? <==>
              count <= MAX_FEE_RECIPIENTS && forall k :: 0 <= k < count ==> b[base + k * FEE_RECIPIENT_LEN] <= 2
  {
    if count <= MAX_FEE_RECIPIENTS {
      DecodeFromMeaning(b, base, count, 0);
      assert forall k :: 0 <= k < count ==> (SlotOk(b, base, k) <==> b[base + k * FEE_RECIPIENT_LEN] <= 2);
    }
  }

  /** An endpoint decodes iff it is long enough, has at most 8 recipients and their kinds are legal. */
  lemma EndpointConfigDecodes(b: Bytes)
    ensures DecodeEndpointConfig(b).Ok? <==>
              && 544 <= |b| && b[152] <= 8
              && forall k: nat :: k < b[152] ==> b[160 + k * 48] <= 2
  {
    if ENDPOINT_CONFIG_LEN <= |b| {
      DecodableSlots(b, 160, b[152]);
    }
  }

  /** The fields before the recipients, in their order, with their paddings. */
  lemma EndpointConfigBytes(b: Bytes, x: EndpointConfig)
    requires DecodeEndpointConfig(b) == Ok(x) && b[1] <= 1
    ensures b[..160]
         == [x.bump] + Flag(x.paused) + Field(b, 2, 6) + x.slug + U64(x.flatPremiumLamports)
            + U16(x.percentBps) + Field(b, 34, 6) + U32(x.slaLatencyMs) + Field(b, 44, 4)
            + U64(x.imputedCostLamports) + U64(x.exposureCapPerHourLamports) + I64(x.currentPeriodStart)
            + U64(x.currentPeriodRefunds) + U64(x.totalCalls) + U64(x.totalBreaches) + U64(x.totalPremiums)
            + U64(x.totalRefunds) + I64(x.lastUpdated) + x.coveragePool + [x.feeRecipientCount]
            + Field(b, 153, 7)
  {
    FieldsReadBack(b);
    assert b[..0] == [];
    NextField(b, 0, 1);
    NextField(b, 1, 1);
    NextField(b, 2, 6);
    NextField(b, 8, 16);
    NextField(b, 24, 8);
    NextField(b, 32, 2);
    NextField(b, 34, 6);
    NextField(b, 40, 4);
    NextField(b, 44, 4);
    NextField(b, 48, 8);
    NextField(b, 56, 8);
    NextField(b, 64, 8);
    NextField(b, 72, 8);
    NextField(b, 80, 8);
    NextField(b, 88, 8);
    NextField(b, 96, 8);
    NextField(b, 104, 8);
    NextField(b, 112, 8);
    NextField(b, 120, 32);
    NextField(b, 152, 1);
    NextField(b, 153, 7);
  }

  // ---------------------------------------------------------------------------------------------
  // CallRecord: 112 bytes
  // ---------------------------------------------------------------------------------------------

  const CALL_RECORD_LEN := 112

  // The status is 0 (settled) to 3 (exposure cap clamped).
  datatype CallRecord = CallRecord(
    bump: byte, breach: bool, settlementStatus: byte, callId: Bytes16, agent: Pubkey, endpointSlug: Bytes16,
    premiumLamports: u64, refundLamports: u64, actualRefundLamports: u64, latencyMs: u32, timestamp: i64)

  function DecodeCallRecord(b: Bytes): (r: Result<CallRecord, DecodeError>)
    ensures r.Ok? <==> 112 <= |b| && b[2] <= 3
  {
    if |b| < CALL_RECORD_LEN then Err(TooShort(CALL_RECORD_LEN, |b|))
    else if ReadU8(b, 2) > 3 then Err(UnknownStatus(ReadU8(b, 2)))
    else Ok(CallRecord(
      ReadU8(b, 0), ReadU8(b, 1) != 0, ReadU8(b, 2), Field(b, 8, 16), ReadPubkey(b, 24), Field(b, 56, 16),
      ReadU64(b, 72), ReadU64(b, 80), ReadU64(b, 88), ReadU32(b, 96), ReadI64(b, 104)))
  }

  function PutCallRecord(b: Bytes, x: CallRecord): (c: Bytes)
    requires CALL_RECORD_LEN <= |b|
    ensures |c| == |b|
  {
    var b := Put(b, 0, [x.bump]);
    var b := Put(b, 1, Flag(x.breach));
    var b := Put(b, 2, [x.settlementStatus]);
    var b := Put(b, 8, x.callId);
    var b := Put(b, 24, x.agent);
    var b := Put(b, 56, x.endpointSlug);
    var b := Put(b, 72, U64(x.premiumLamports));
    var b := Put(b, 80, U64(x.refundLamports));
    var b := Put(b, 88, U64(x.actualRefundLamports));
    var b := Put(b, 96, U32(x.latencyMs));
    Put(b, 104, I64(x.timestamp))
  }

  /** The laws of a call record. */
  lemma CallRecordLaws(b: Bytes, x: CallRecord)
    requires 112 <= |b|
    ensures x.settlementStatus <= 3 ==> DecodeCallRecord(PutCallRecord(b, x)) == Ok(x)
    ensures DecodeCallRecord(b) == Ok(x) && b[1] <= 1 ==> PutCallRecord(b, x) == b
  {
    if DecodeCallRecord(b) == Ok(x) && b[1] <= 1 {
      FieldsReadBack(b);
      assert Flag(x.breach) == Field(b, 1, 1);
    }
  }

  /** The fields of the account in their order, with their paddings. */
  lemma CallRecordBytes(b: Bytes, x: CallRecord)
    requires DecodeCallRecord(b) == Ok(x) && b[1] <= 1
    ensures b[..112]
         == [x.bump] + Flag(x.breach) + [x.settlementStatus] + Field(b, 3, 5) + x.callId + x.agent
            + x.endpointSlug + U64(x.premiumLamports) + U64(x.refundLamports) + U64(x.actualRefundLamports)
            + U32(x.latencyMs) + Field(b, 100, 4) + I64(x.timestamp)
  {
    FieldsReadBack(b);
    assert b[..0] == [];
    NextField(b, 0, 1);
    NextField(b, 1, 1);
    NextField(b, 2, 1);
    NextField(b, 3, 5);
    NextField(b, 8, 16);
    NextField(b, 24, 32);
    NextField(b, 56, 16);
    NextField(b, 72, 8);
    NextField(b, 80, 8);
    NextField(b, 88, 8);
    NextField(b, 96, 4);
    NextField(b, 100, 4);
    NextField(b, 104, 8);
  }

  // ---------------------------------------------------------------------------------------------
  // SettlementAuthority: 48 bytes; Treasury: 80 bytes
  // ---------------------------------------------------------------------------------------------

  const SETTLEMENT_AUTHORITY_LEN := 48
  const TREASURY_LEN := 80

  datatype SettlementAuthority = SettlementAuthority(bump: byte, signer: Pubkey, setAt: i64)

  datatype Treasury = Treasury(bump: byte, authority: Pubkey, usdcVault: Pubkey, setAt: i64)

  function DecodeSettlementAuthority(b: Bytes): Result<SettlementAuthority, DecodeError> {
    if |b| < SETTLEMENT_AUTHORITY_LEN then Err(TooShort(SETTLEMENT_AUTHORITY_LEN, |b|))
    else Ok(SettlementAuthority(ReadU8(b, 0), ReadPubkey(b, 8), ReadI64(b, 40)))
  }

  function PutSettlementAuthority(b: Bytes, x: SettlementAuthority): (c: Bytes)
    requires SETTLEMENT_AUTHORITY_LEN <= |b|
    ensures |c| == |b|
  {
    Put(Put(Put(b, 0, [x.bump]), 8, x.signer), 40, I64(x.setAt))
  }

  lemma SettlementAuthorityLaws(b: Bytes, x: SettlementAuthority)
    requires 48 <= |b|
    ensures DecodeSettlementAuthority(PutSettlementAuthority(b, x)) == Ok(x)
    ensures DecodeSettlementAuthority(b) == Ok(x) ==> PutSettlementAuthority(b, x) == b
  {
    FieldsReadBack(b);
  }

  function DecodeTreasury(b: Bytes): Result<Treasury, DecodeError> {
    if |b| < TREASURY_LEN then Err(TooShort(TREASURY_LEN, |b|))
    else Ok(Treasury(ReadU8(b, 0), ReadPubkey(b, 8), ReadPubkey(b, 40), ReadI64(b, 72)))
  }

  function PutTreasury(b: Bytes, x: Treasury): (c: Bytes)
    requires TREASURY_LEN <= |b|
    ensures |c| == |b|
  {
    Put(Put(Put(Put(b, 0, [x.bump]), 8, x.authority), 40, x.usdcVault), 72, I64(x.setAt))
  }

  lemma TreasuryLaws(b: Bytes, x: Treasury)
    requires 80 <= |b|
    ensures DecodeTreasury(PutTreasury(b, x)) == Ok(x)
    ensures DecodeTreasury(b) == Ok(x) ==> PutTreasury(b, x) == b
  {
    FieldsReadBack(b);
  }

  /** The fields of the account in their order, with their paddings. */
  lemma SettlementAuthorityBytes(b: Bytes, x: SettlementAuthority)
    requires DecodeSettlementAuthority(b) == Ok(x)
    ensures b[..48]
         == [x.bump] + Field(b, 1, 7) + x.signer + I64(x.setAt)
  {
    FieldsReadBack(b);
    assert b[..0] == [];
    NextField(b, 0, 1);
    NextField(b, 1, 7);
    NextField(b, 8, 32);
    NextField(b, 40, 8);
  }

  /** The fields of the account in their order, with their paddings. */
  lemma TreasuryBytes(b: Bytes, x: Treasury)
    requires DecodeTreasury(b) == Ok(x)
    ensures b[..80]
         == [x.bump] + Field(b, 1, 7) + x.authority + x.usdcVault + I64(x.setAt)
  {
    FieldsReadBack(b);
    assert b[..0] == [];
    NextField(b, 0, 1);
    NextField(b, 1, 7);
    NextField(b, 8, 32);
    NextField(b, 40, 32);
    NextField(b, 72, 8);
  }

  // ---------------------------------------------------------------------------------------------
  // ProtocolConfig: 464 bytes
  // ---------------------------------------------------------------------------------------------

  const PROTOCOL_CONFIG_LEN := 464

  datatype ProtocolConfig = ProtocolConfig(
    bump: byte, authority: Pubkey, usdcMint: Pubkey, maxTotalFeeBps: u16, defaultFeeRecipientCount: byte,
    paused: byte, defaultFeeRecipients: seq<FeeRecipient>)

  function DecodeProtocolConfig(b: Bytes): Result<ProtocolConfig, DecodeError> {
    if |b| < PROTOCOL_CONFIG_LEN then Err(TooShort(PROTOCOL_CONFIG_LEN, |b|))
    else
      var count := ReadU8(b, 74);
      match DecodeRecipients(b, 80, count)
      case Err(e) => Err(e)
      case Ok(rs) => Ok(ProtocolConfig(
        ReadU8(b, 0), ReadPubkey(b, 8), ReadPubkey(b, 40), ReadU16(b, 72), count, ReadU8(b, 75), rs))
  }

  function PutProtocolHead(b: Bytes, x: ProtocolConfig): (c: Bytes)
    requires PROTOCOL_CONFIG_LEN <= |b|
    ensures |c| == |b|
  {
    var b := Put(b, 0, [x.bump]);
    var b := Put(b, 8, x.authority);
    var b := Put(b, 40, x.usdcMint);
    var b := Put(b, 72, U16(x.maxTotalFeeBps));
    var b := Put(b, 74, [x.defaultFeeRecipientCount]);
    Put(b, 75, [x.paused])
  }

  function PutProtocolConfig(b: Bytes, x: ProtocolConfig): (c: Bytes)
    requires PROTOCOL_CONFIG_LEN <= |b| && |x.defaultFeeRecipients| <= MAX_FEE_RECIPIENTS
    ensures |c| == |b|
  {
    PutRecipients(PutProtocolHead(b, x), 80, x.defaultFeeRecipients)
  }

  /** The laws of the protocol configuration; its paused byte is kept as it is. */
  lemma ProtocolConfigLaws(b: Bytes, x: ProtocolConfig)
    requires 464 <= |b|
    requires |x.defaultFeeRecipients| == x.defaultFeeRecipientCount <= 8
    ensures KindsLegal(x.defaultFeeRecipients) ==> DecodeProtocolConfig(PutProtocolConfig(b, x)) == Ok(x)
    ensures DecodeProtocolConfig(b) == Ok(x) ==> PutProtocolConfig(b, x) == b
  {
    var head := PutProtocolHead(b, x);
    HeadKept(head, 80, x.defaultFeeRecipients);
    if KindsLegal(x.defaultFeeRecipients) {
      RecipientsReadBack(head, 80, x.defaultFeeRecipients);
    }
    if DecodeProtocolConfig(b) == Ok(x) {
      FieldsReadBack(b);
      RecipientsWriteBack(b, 80, x.defaultFeeRecipientCount);
      assert head == b;
    }
  }

  /** A configuration decodes iff it is long enough, has at most 8 recipients and their kinds are legal. */
  lemma ProtocolConfigDecodes(b: Bytes)
    ensures DecodeProtocolConfig(b).Ok? <==>
              && 464 <= |b| && b[74] <= 8
              && forall k: nat :: k < b[74] ==> b[80 + k * 48] <= 2
  {
    if PROTOCOL_CONFIG_LEN <= |b| {
      DecodableSlots(b, 80, b[74]);
    }
  }

  /** The fields before the recipients, in their order, with their paddings. */
  lemma ProtocolConfigBytes(b: Bytes, x: ProtocolConfig)
    requires DecodeProtocolConfig(b) == Ok(x)
    ensures b[..80]
         == [x.bump] + Field(b, 1, 7) + x.authority + x.usdcMint + U16(x.maxTotalFeeBps)
            + [x.defaultFeeRecipientCount] + [x.paused] + Field(b, 76, 4)
  {
    FieldsReadBack(b);
    assert b[..0] == [];
    NextField(b, 0, 1);
    NextField(b, 1, 7);
    NextField(b, 8, 32);
    NextField(b, 40, 32);
    NextField(b, 72, 2);
    NextField(b, 74, 1);
    NextField(b, 75, 1);
    NextField(b, 76, 4);
  }

  lemma DecodedSlots(b: Bytes, base: nat, count: nat, rs: seq<FeeRecipient>)
    requires DecodeRecipients(b, base, count) == Ok(rs)
    ensures |rs| == count && forall k :: 0 <= k < count ==> DecodeFeeRecipient(b, base + k * 48) == Ok(rs[k])
  {
    DecodeFromMeaning(b, base, count, 0);
  }

  /** The recipients are the slots behind, in order: as many as the count says. */
  lemma RecipientSlots(b: Bytes, x: EndpointConfig)
    requires DecodeEndpointConfig(b) == Ok(x)
    ensures |x.feeRecipients| == x.feeRecipientCount == b[152]
    ensures forall k :: 0 <= k < |x.feeRecipients| ==>
              DecodeFeeRecipient(b, 160 + k * 48) == Ok(x.feeRecipients[k])
  {
    DecodedSlots(b, 160, b[152], x.feeRecipients);
  }

  /** And so are the default recipients. */
  lemma DefaultSlots(b: Bytes, x: ProtocolConfig)
    requires DecodeProtocolConfig(b) == Ok(x)
    ensures |x.defaultFeeRecipients| == x.defaultFeeRecipientCount == b[74]
    ensures forall k :: 0 <= k < |x.defaultFeeRecipients| ==>
              DecodeFeeRecipient(b, 80 + k * 48) == Ok(x.defaultFeeRecipients[k])
  {
    DecodedSlots(b, 80, b[74], x.defaultFeeRecipients);
  }

  // ---------------------------------------------------------------------------------------------
  // What the decoders refuse
  // ---------------------------------------------------------------------------------------------

  /** The accounts of fixed shape, and a slot: what is too short, then what has an unknown code. */
  lemma FixedSizeErrors(b: Bytes, offset: nat)
    ensures var r := DecodeFeeRecipient(b, offset);
            && (|b| < offset + 48 ==> r == Err(TooShort(48, |b| - offset)))
            && (offset + 48 <= |b| && b[offset] > 2 ==> r == Err(UnknownKind(b[offset])))
            && (offset + 48 <= |b| && b[offset] <= 2 ==> r.Ok?)
    ensures var r := DecodeCallRecord(b);
            && (|b| < 112 ==> r == Err(TooShort(112, |b|)))
            && (112 <= |b| && b[2] > 3 ==> r == Err(UnknownStatus(b[2])))
            && (112 <= |b| && b[2] <= 3 ==> r.Ok?)
    ensures var r := DecodeCoveragePool(b); if |b| < 160 then r == Err(TooShort(160, |b|)) else r.Ok?
    ensures var r := DecodeSettlementAuthority(b); if |b| < 48 then r == Err(TooShort(48, |b|)) else r.Ok?
    ensures var r := DecodeTreasury(b); if |b| < 80 then r == Err(TooShort(80, |b|)) else r.Ok?
  {
  }

  // Slot k, counted from 0, is the first from slot i on whose kind is unknown.
  ghost predicate FirstUnknown(b: Bytes, base: nat, i: nat, k: nat) {
    && i <= k && base + k * 48 < |b| && b[base + k * 48] > 2
    && forall j :: i <= j < k ==> b[base + j * 48] <= 2
  }

  lemma {:induction false} FirstUnknownDecides(b: Bytes, base: nat, count: nat, i: nat, k: nat)
    requires k < count && base + count * 48 <= |b| && FirstUnknown(b, base, i, k)
    ensures DecodeRecipientsFrom(b, base, count, i) == Err(UnknownKind(b[base + k * 48]))
    decreases k - i
  {
    FixedSizeErrors(b, base + i * 48);
    if i < k {
      FirstUnknownDecides(b, base, count, i + 1, k);
    }
  }

  /** The accounts with recipients: what is too short, then too many recipients, then the first unknown kind. */
  lemma ConfigErrors(b: Bytes, k: nat)
    ensures var r := DecodeEndpointConfig(b);
            && (|b| < 544 ==> r == Err(TooShort(544, |b|)))
            && (544 <= |b| && b[152] > 8 ==> r == Err(TooManyRecipients(b[152])))
            && (544 <= |b| && k < b[152] <= 8 && FirstUnknown(b, 160, 0, k)
                ==> r == Err(UnknownKind(b[160 + k * 48])))
    ensures var r := DecodeProtocolConfig(b);
            && (|b| < 464 ==> r == Err(TooShort(464, |b|)))
            && (464 <= |b| && b[74] > 8 ==> r == Err(TooManyRecipients(b[74])))
            && (464 <= |b| && k < b[74] <= 8 && FirstUnknown(b, 80, 0, k)
                ==> r == Err(UnknownKind(b[80 + k * 48])))
  {
    if 544 <= |b| && k < b[152] <= 8 && FirstUnknown(b, 160, 0, k) {
      FirstUnknownDecides(b, 160, b[152], 0, k);
    }
    if 464 <= |b| && k < b[74] <= 8 && FirstUnknown(b, 80, 0, k) {
      FirstUnknownDecides(b, 80, b[74], 0, k);
    }
  }
}
