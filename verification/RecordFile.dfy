/**
 The record store of the monitor: an append-only JSONL file.

 The file is a string. Appending adds one encoded line, marking rewrites the whole file, and every
 read trims, splits and parses it again. This module shows that the string behaves as a sequence
 of records: whatever mix of appends and rewrites produced it, parsing returns exactly the records.
 */
module RecordFile {

  import opened Wrappers
  import opened Text

  datatype Classification = Success | Timeout | ClientError | ServerError | SchemaMismatch

  // A finite floating-point number, mantissa * 2^exponent, in the one form that IEEE 754 gives it: the
  // mantissa has 53 bits, or fewer with the least exponent. Negative zero is left out.
  datatype Binary64 = Binary64(mantissa: int, exponent: int)

  const LEAST_53_BITS := 0x10_0000_0000_0000
  const MIN_EXPONENT := -1074
  const MAX_EXPONENT := 971

  type Double = d: Binary64 |
    && -2 * LEAST_53_BITS < d.mantissa < 2 * LEAST_53_BITS && MIN_EXPONENT <= d.exponent <= MAX_EXPONENT
    && (d.exponent == MIN_EXPONENT || LEAST_53_BITS <= d.mantissa || d.mantissa <= -LEAST_53_BITS)
    witness Binary64(0, MIN_EXPONENT)

  // An integer that a number holds exactly.
  type SafeInt = n: int | -2 * LEAST_53_BITS < n < 2 * LEAST_53_BITS

  datatype Payment = Payment(
    protocol: string, amount: Double, asset: string, network: string,
    payerAddress: string, recipientAddress: string, txHash: string, settlementSuccess: bool)

  datatype CallRecord = CallRecord(
    hostname: string, endpoint: string, timestamp: string, statusCode: SafeInt, latencyMs: SafeInt,
    classification: Classification, payment: Option<Payment>, synced: bool)

  // ---------------------------------------------------------------------------------------------
  // The JSON codec, known only through the facts that RFC 8259 gives about an encoded object
  // ---------------------------------------------------------------------------------------------

  datatype Codec = Codec(encode: CallRecord -> string, decode: string -> Option<CallRecord>) {

    // An encoded object starts with a brace, ends with a brace and holds no raw control character
    // (RFC 8259, sections 4 and 7); decoding it gives the record back.
    ghost predicate Lawful() {
      forall r: CallRecord ::
        && decode(encode(r)) == Some(r)
        && 0 < |encode(r)|
        && encode(r)[0] == '{'
        && encode(r)[|encode(r)| - 1] == '}'
        && '\n' !in encode(r)
    }
  }

  // ---------------------------------------------------------------------------------------------
  // The string operations of the reader
  // ---------------------------------------------------------------------------------------------

  function TrimStart(s: string): string {
    if s != [] && IsBlank(s[0]) then TrimStart(s[1..]) else s
  }

  function TrimEnd(s: string): string {
    if s != [] && IsBlank(s[|s| - 1]) then TrimEnd(s[..|s| - 1]) else s
  }

  function Trim(s: string): string {
    TrimEnd(TrimStart(s))
  }

  function SplitLines(s: string): (lines: seq<string>)
    ensures 0 < |lines|
  {
    if s == [] then [""]
    else
      var rest := SplitLines(s[1..]);
      if s[0] == '\n' then [""] + rest else [[s[0]] + rest[0]] + rest[1..]
  }

  function JoinLines(lines: seq<string>): string {
    if lines == [] then ""
    else if |lines| == 1 then lines[0]
    else lines[0] + "\n" + JoinLines(lines[1..])
  }

  function EncodeAll(codec: Codec, records: seq<CallRecord>): (lines: seq<string>)
    ensures |lines| == |records|
  {
    if records == [] then [] else [codec.encode(records[0])] + EncodeAll(codec, records[1..])
  }

  // None stands for the SyntaxError of the first line that does not parse.
  function DecodeAll(codec: Codec, lines: seq<string>): Option<seq<CallRecord>> {
    if lines == [] then Some([])
    else
      match codec.decode(lines[0])
      case None => None
      case Some(r) =>
        match DecodeAll(codec, lines[1..])
        case None => None
        case Some(rest) => Some([r] + rest)
  }

  // What readAll returns on a file (None: there is no file), or None when it throws.
  function ReadFile(codec: Codec, file: Option<string>): Option<seq<CallRecord>> {
    match file
    case None => Some([])
    case Some(content) =>
      var trimmed := Trim(content);
      if trimmed == "" then Some([]) else DecodeAll(codec, SplitLines(trimmed))
  }

  // What markSynced writes.
  function RewriteFile(codec: Codec, records: seq<CallRecord>): string {
    JoinLines(EncodeAll(codec, records)) + "\n"
  }

  // What append writes. Appending to a missing file creates it.
  function AppendToFile(codec: Codec, file: Option<string>, record: CallRecord): string {
    (match file case None => "" case Some(content) => content) + codec.encode(record) + "\n"
  }

  /** Lines decode all or not at all: one that does not parse makes the read throw. */
  lemma {:induction false} DecodeAllMeaning(codec: Codec, lines: seq<string>)
    ensures var d := DecodeAll(codec, lines);
            && (d.Some? <==> forall i :: 0 <= i < |lines| ==> codec.decode(lines[i]).Some?)
            && (d.Some? ==> |d.value| == |lines|
                            && forall i :: 0 <= i < |lines| ==> codec.decode(lines[i]) == Some(d.value[i]))
  {
    if lines != [] {
      DecodeAllMeaning(codec, lines[1..]);
      var d := DecodeAll(codec, lines);
      assert forall i :: 1 <= i < |lines| ==> lines[i] == lines[1..][i - 1];
      if d.Some? {
        assert forall i :: 1 <= i < |lines| ==> d.value[i] == DecodeAll(codec, lines[1..]).value[i - 1];
      } else if codec.decode(lines[0]).Some? {
        var i :| 0 <= i < |lines[1..]| && codec.decode(lines[1..][i]).None?;
        assert codec.decode(lines[i + 1]).None?;
      }
    }
  }

  lemma {:induction false} TrimStartMeaning(s: string) returns (i: nat)
    ensures i <= |s| && TrimStart(s) == s[i..] && (forall k :: 0 <= k < i ==> IsBlank(s[k]))
    ensures i < |s| ==> !IsBlank(s[i])
  {
    i := 0;
    if s != [] && IsBlank(s[0]) {
      i := TrimStartMeaning(s[1..]);
      assert forall k :: 1 <= k < i + 1 ==> s[k] == s[1..][k - 1];
      i := i + 1;
    }
  }

  lemma {:induction false} TrimEndMeaning(s: string) returns (j: nat)
    ensures j <= |s| && TrimEnd(s) == s[..j] && (forall k :: j <= k < |s| ==> IsBlank(s[k]))
    ensures 0 < j ==> !IsBlank(s[j - 1])
  {
    j := |s|;
    if s != [] && IsBlank(s[|s| - 1]) {
      j := TrimEndMeaning(s[..|s| - 1]);
    }
  }

  /** Trimming takes the white space off both ends, and nothing else. */
  lemma TrimMeaning(s: string) returns (i: nat, j: nat)
    ensures i <= j <= |s| && Trim(s) == s[i..j]
    ensures forall k :: 0 <= k < i || j <= k < |s| ==> IsBlank(s[k])
    ensures i < j ==> !IsBlank(s[i]) && !IsBlank(s[j - 1])
  {
    i := TrimStartMeaning(s);
    j := TrimEndMeaning(s[i..]);
    assert forall k :: i + j <= k < |s| ==> s[k] == s[i..][k - i];
    if 0 < j {
      assert s[i..][j - 1] == s[i + j - 1];
    }
    j := i + j;
    assert s[i..][..j - i] == s[i..j];
  }

  // ---------------------------------------------------------------------------------------------
  // The file refines a sequence of records
  // ---------------------------------------------------------------------------------------------

  // One newline-terminated line a record.
  ghost function Lines(codec: Codec, records: seq<CallRecord>): string {
    if records == [] then "" else codec.encode(records[0]) + "\n" + Lines(codec, records[1..])
  }

  // The files that the store itself produces: none, or the lines of the records, after the blank
  // line that marking an empty store leaves behind.
  ghost predicate Represents(codec: Codec, file: Option<string>, records: seq<CallRecord>) {
    match file
    case None => records == []
    case Some(content) => content == Lines(codec, records) || content == "\n" + Lines(codec, records)
  }

  lemma {:induction false} TrimStartSolid(s: string)
    requires s != [] && !IsBlank(s[0])
    ensures TrimStart(s) == s && TrimStart("\n" + s) == s
  {
    assert ("\n" + s)[1..] == s;
  }

  lemma {:induction false} TrimEndNewline(s: string)
    requires s != [] && !IsBlank(s[|s| - 1])
    ensures TrimEnd(s + "\n") == s
  {
    assert (s + "\n")[..|s + "\n"| - 1] == s;
  }

  lemma {:induction false} SplitPlain(s: string)
    requires '\n' !in s
    ensures SplitLines(s) == [s]
  {
    if s != [] {
      SplitPlain(s[1..]);
      assert s == [s[0]] + s[1..];
    }
  }

  lemma {:induction false} SplitFirst(line: string, rest: string)
    requires '\n' !in line
    ensures SplitLines(line + "\n" + rest) == [line] + SplitLines(rest)
  {
    var s := line + "\n" + rest;
    if line == [] {
      assert s[1..] == rest;
    } else {
      SplitFirst(line[1..], rest);
      assert s[1..] == line[1..] + "\n" + rest;
      assert line == [line[0]] + line[1..];
    }
  }

  // Splitting undoes joining.
  lemma {:induction false} SplitJoin(lines: seq<string>)
    requires 0 < |lines| && forall line :: line in lines ==> '\n' !in line
    ensures SplitLines(JoinLines(lines)) == lines
  {
    if |lines| == 1 {
      SplitPlain(lines[0]);
    } else {
      SplitFirst(lines[0], JoinLines(lines[1..]));
      SplitJoin(lines[1..]);
    }
  }

  lemma {:induction false} DecodeEncode(codec: Codec, records: seq<CallRecord>)
    requires codec.Lawful()
    ensures DecodeAll(codec, EncodeAll(codec, records)) == Some(records)
    ensures forall line :: line in EncodeAll(codec, records) ==> '\n' !in line
  {
    if records != [] {
      DecodeEncode(codec, records[1..]);
      assert EncodeAll(codec, records)[1..] == EncodeAll(codec, records[1..]);
      assert records == [records[0]] + records[1..];
    }
  }

  // The body of a non-empty file, without the newline at its end, is the joined lines; it has no
  // blank at either end.
  lemma {:induction false} LinesAreJoined(codec: Codec, records: seq<CallRecord>)
    requires codec.Lawful() && records != []
    ensures var joined := JoinLines(EncodeAll(codec, records));
            && Lines(codec, records) == joined + "\n"
            && joined != [] && !IsBlank(joined[0]) && !IsBlank(joined[|joined| - 1])
  {
    var first := codec.encode(records[0]);
    if |records| == 1 {
      assert Lines(codec, records[1..]) == "";
      assert EncodeAll(codec, records) == [first];
    } else {
      LinesAreJoined(codec, records[1..]);
      assert EncodeAll(codec, records)[1..] == EncodeAll(codec, records[1..]);
    }
  }

  /** Reading a file that represents a sequence of records returns exactly that sequence. */
  lemma ReadRepresented(codec: Codec, file: Option<string>, records: seq<CallRecord>)
    requires codec.Lawful() && Represents(codec, file, records)
    ensures ReadFile(codec, file) == Some(records)
  {
    if file.Some? && records != [] {
      var joined := JoinLines(EncodeAll(codec, records));
      LinesAreJoined(codec, records);
      assert !IsBlank((joined + "\n")[0]);
      TrimStartSolid(joined + "\n");
      TrimEndNewline(joined);
      DecodeEncode(codec, records);
      SplitJoin(EncodeAll(codec, records));
    } else if file.Some? {
      assert "\n" + Lines(codec, records) == "\n";
      assert TrimStart("\n") == "" by { assert "\n"[1..] == ""; }
    }
  }

  lemma {:induction false} LinesAppend(codec: Codec, records: seq<CallRecord>, record: CallRecord)
    ensures Lines(codec, records + [record]) == Lines(codec, records) + codec.encode(record) + "\n"
  {
    if records == [] {
      assert Lines(codec, [record][1..]) == "";
    } else {
      assert (records + [record])[1..] == records[1..] + [record];
      LinesAppend(codec, records[1..], record);
    }
  }

  /** Appending to the file appends to the sequence, also when the file is missing or blank. */
  lemma AppendRepresented(codec: Codec, file: Option<string>, records: seq<CallRecord>, record: CallRecord)
    requires Represents(codec, file, records)
    ensures Represents(codec, Some(AppendToFile(codec, file, record)), records + [record])
  {
    LinesAppend(codec, records, record);
    if file.Some? && file.value != Lines(codec, records) {
      assert AppendToFile(codec, file, record) == "\n" + (Lines(codec, records) + codec.encode(record) + "\n");
    } else {
      assert AppendToFile(codec, file, record) == Lines(codec, records) + codec.encode(record) + "\n";
    }
  }

  /** Whatever the file held before, rewriting it with some records makes it represent them. */
  lemma RewriteRepresented(codec: Codec, records: seq<CallRecord>)
    requires codec.Lawful()
    ensures Represents(codec, Some(RewriteFile(codec, records)), records)
  {
    if records != [] {
      LinesAreJoined(codec, records);
    }
  }

  // ---------------------------------------------------------------------------------------------
  // Which records are pending, and what marking does to them
  // ---------------------------------------------------------------------------------------------

  function Unsynced(records: seq<CallRecord>): seq<CallRecord> {
    if records == [] then []
    else if records[0].synced then Unsynced(records[1..])
    else [records[0]] + Unsynced(records[1..])
  }

  // Marking is positional: it flips the first "count" unsynced records.
  function MarkFirst(records: seq<CallRecord>, count: int): (marked: seq<CallRecord>)
    ensures |marked| == |records|
  {
    if records == [] then []
    else if !records[0].synced && 0 < count then
      [records[0].(synced := true)] + MarkFirst(records[1..], count - 1)
    else
      [records[0]] + MarkFirst(records[1..], count)
  }

  // The positions of the unsynced records, counted from "base".
  ghost function PendingFrom(records: seq<CallRecord>, base: nat): seq<nat> {
    if records == [] then []
    else if records[0].synced then PendingFrom(records[1..], base + 1)
    else [base] + PendingFrom(records[1..], base + 1)
  }

  ghost function Pending(records: seq<CallRecord>): seq<nat> {
    PendingFrom(records, 0)
  }

  lemma {:induction false} PendingFromLength(records: seq<CallRecord>, base: nat)
    ensures |PendingFrom(records, base)| == |Unsynced(records)| <= |records|
  {
    if records != [] {
      PendingFromLength(records[1..], base + 1);
    }
  }

  // They list the records that the filter of the reader returns ...
  lemma {:induction false} PendingFromUnsynced(records: seq<CallRecord>, base: nat, i: nat)
    requires i < |PendingFrom(records, base)| && i < |Unsynced(records)|
    ensures var q := PendingFrom(records, base)[i];
            base <= q < base + |records| && Unsynced(records)[i] == records[q - base] && !records[q - base].synced
  {
    if records[0].synced {
      PendingFromUnsynced(records[1..], base + 1, i);
    } else if 0 < i {
      PendingFromUnsynced(records[1..], base + 1, i - 1);
    }
  }

  // ... in ascending order ...
  lemma {:induction false} PendingFromAscends(records: seq<CallRecord>, base: nat, i: nat, j: nat)
    requires i < j < |PendingFrom(records, base)|
    ensures PendingFrom(records, base)[i] < PendingFrom(records, base)[j]
  {
    if records[0].synced {
      PendingFromAscends(records[1..], base + 1, i, j);
    } else if 0 < i {
      PendingFromAscends(records[1..], base + 1, i - 1, j - 1);
    } else {
      PendingFromLength(records[1..], base + 1);
      PendingFromUnsynced(records[1..], base + 1, j - 1);
    }
  }

  // ... and all of them.
  lemma {:induction false} PendingFromAll(records: seq<CallRecord>, base: nat, q: nat)
    ensures q in PendingFrom(records, base) <==> base <= q < base + |records| && !records[q - base].synced
  {
    if records != [] {
      PendingFromAll(records[1..], base + 1, q);
    }
  }

  // The pending positions, summed up.
  lemma PendingMeaning(records: seq<CallRecord>)
    ensures var p := Pending(records);
            && |p| == |Unsynced(records)| <= |records|
            && (forall i :: 0 <= i < |p| ==> p[i] < |records| && Unsynced(records)[i] == records[p[i]])
            && (forall i, j :: 0 <= i < j < |p| ==> p[i] < p[j])
            && (forall q: nat :: q in p <==> q < |records| && !records[q].synced)
  {
    var p := Pending(records);
    PendingFromLength(records, 0);
    forall i: nat | i < |p|
      ensures p[i] < |records| && Unsynced(records)[i] == records[p[i]]
    {
      PendingFromUnsynced(records, 0, i);
    }
    forall i: nat, j: nat | i < j < |p|
      ensures p[i] < p[j]
    {
      PendingFromAscends(records, 0, i, j);
    }
    forall q: nat
      ensures q in p <==> q < |records| && !records[q].synced
    {
      PendingFromAll(records, 0, q);
    }
  }

  lemma {:induction false} PendingFromAppend(records: seq<CallRecord>, record: CallRecord, base: nat)
    ensures PendingFrom(records + [record], base)
         == PendingFrom(records, base) + if record.synced then [] else [base + |records|]
  {
    if records == [] {
      assert PendingFrom([record][1..], base + 1) == [];
    } else {
      assert (records + [record])[1..] == records[1..] + [record];
      PendingFromAppend(records[1..], record, base + 1);
    }
  }

  // Marking takes the marked records off the front of the pending ones.
  lemma {:induction false} PendingFromMark(records: seq<CallRecord>, count: nat, base: nat)
    requires count <= |PendingFrom(records, base)|
    ensures PendingFrom(MarkFirst(records, count), base) == PendingFrom(records, base)[count..]
  {
    if records != [] {
      var flips := !records[0].synced && 0 < count;
      var rest := if flips then count - 1 else count;
      PendingFromMark(records[1..], rest, base + 1);
      assert MarkFirst(records, count)[1..] == MarkFirst(records[1..], rest);
    }
  }

  // The first pending positions are the first record's, if it is flipped, and then later ones.
  lemma FirstPending(records: seq<CallRecord>, count: nat, base: nat, q: nat)
    requires records != [] && count <= |PendingFrom(records, base)|
    ensures var flips := !records[0].synced && 0 < count;
            var rest := if flips then count - 1 else count;
            && rest <= |PendingFrom(records[1..], base + 1)|
            && (q in PendingFrom(records, base)[..count]
                <==> (flips && q == base) || q in PendingFrom(records[1..], base + 1)[..rest])
            && base !in PendingFrom(records[1..], base + 1)[..rest]
  {
    var tail := PendingFrom(records[1..], base + 1);
    var flips := !records[0].synced && 0 < count;
    var rest := if flips then count - 1 else count;
    assert PendingFrom(records, base)[..count] == (if flips then [base] else []) + tail[..rest];
    PendingFromAll(records[1..], base + 1, base);
    assert base in tail[..rest] ==> base in tail;
  }

  // Marking flips exactly the first pending positions and changes nothing else.
  lemma {:induction false} MarkFlips(records: seq<CallRecord>, count: nat, base: nat, i: nat)
    requires count <= |PendingFrom(records, base)| && i < |records|
    ensures MarkFirst(records, count)[i] ==
            if base + i in PendingFrom(records, base)[..count]
            then records[i].(synced := true) else records[i]
  {
    var flips := !records[0].synced && 0 < count;
    var rest := if flips then count - 1 else count;
    FirstPending(records, count, base, base + i);
    if 0 < i {
      MarkFlips(records[1..], rest, base + 1, i - 1);
    }
  }
}
