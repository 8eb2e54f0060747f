/**
 The text of a batch that is signed: JSON.stringify of the records, with the sorted keys of the first one
 as the list of properties.

 The order in which a record's properties were inserted does not matter, and on the flat records that a
 flush builds no property is dropped: the text determines the batch. How JSON prints a value is known only
 through its being unambiguous.
 */
module Signing {

  import opened Wrappers
  import opened RecordFile

  datatype Value = Text(s: string) | Number(d: Double) | Flag(on: bool) | Null

  datatype Field = Field(key: string, value: Value)

  // An object with values that are no objects, in the order of insertion.
  type Row = seq<Field>

  function KeysOf(row: Row): (keys: seq<string>)
    ensures |keys| == |row| && forall i :: 0 <= i < |row| ==> keys[i] == row[i].key
  {
    seq(|row|, i requires 0 <= i < |row| => row[i].key)
  }

  ghost predicate Distinct(keys: seq<string>) {
    forall i, j :: 0 <= i < j < |keys| ==> keys[i] != keys[j]
  }

  function Find(row: Row, key: string): (found: Option<Value>)
    ensures found.None? <==> key !in KeysOf(row)
    ensures found.Some? ==> Field(key, found.value) in row
  {
    if row == [] then None
    else if row[0].key == key then assert KeysOf(row)[0] == key; Some(row[0].value)
    else
      var rest := Find(row[1..], key);
      assert KeysOf(row) == [row[0].key] + KeysOf(row[1..]);
      rest
  }

  lemma FindField(row: Row, f: Field)
    requires Distinct(KeysOf(row)) && f in row
    ensures Find(row, f.key) == Some(f.value)
  {
    var i :| 0 <= i < |row| && row[i] == f;
    assert KeysOf(row)[i] == f.key;
    var g := Field(f.key, Find(row, f.key).value);
    var j :| 0 <= j < |row| && row[j] == g;
    assert KeysOf(row)[j] == KeysOf(row)[i];
  }

  // ---------------------------------------------------------------------------------------------
  // Printing
  // ---------------------------------------------------------------------------------------------

  // What follows a printed value.
  predicate Delimits(rest: string) {
    rest != "" && (rest[0] == ',' || rest[0] == '}')
  }

  datatype Printer = Printer(quote: string -> string, show: Value -> string) {

    // A printed value shows where it ends and what it is.
    ghost predicate Lawful() {
      forall v, w, x, y :: Apart(v, w, x, y)
    }

    ghost predicate Apart(v: Value, w: Value, x: string, y: string) {
      Delimits(x) && Delimits(y) && show(v) + x == show(w) + y ==> v == w
    }
  }

  ghost predicate SortsAlike(sort: seq<string> -> seq<string>, a: seq<string>, b: seq<string>) {
    && (forall k :: k in sort(a) <==> k in a)
    && (Distinct(a) && Distinct(b) && (forall k :: k in a <==> k in b) ==> sort(a) == sort(b))
  }

  // Array.prototype.sort without a comparison: the order of the result depends only on what there is.
  ghost predicate Sorts(sort: seq<string> -> seq<string>) {
    forall a, b :: SortsAlike(sort, a, b)
  }

  function Separator(first: bool): string {
    if first then "" else ","
  }

  // The listed properties that the row has, in the order of the list.
  function MembersText(p: Printer, keys: seq<string>, row: Row, first: bool): string {
    if keys == [] then ""
    else
      match Find(row, keys[0])
      case None => MembersText(p, keys[1..], row, first)
      case Some(v) =>
        Separator(first) + p.quote(keys[0]) + ":" + p.show(v) + MembersText(p, keys[1..], row, false)
  }

  function RowsText(p: Printer, keys: seq<string>, rows: seq<Row>, first: bool): string {
    if rows == [] then ""
    else Separator(first) + "{" + MembersText(p, keys, rows[0], true) + "}" + RowsText(p, keys, rows[1..], false)
  }

  function SerializeRecords(sort: seq<string> -> seq<string>, p: Printer, rows: seq<Row>): string {
    if rows == [] then "[]" else "[" + RowsText(p, sort(KeysOf(rows[0])), rows, true) + "]"
  }

  // The parts, with commas between them.
  function Commas(parts: seq<string>): string {
    if parts == [] then "" else if |parts| == 1 then parts[0] else parts[0] + "," + Commas(parts[1..])
  }

  // "key": value, for each listed property that the row has.
  ghost function Members(p: Printer, keys: seq<string>, row: Row): seq<string> {
    if keys == [] then []
    else
      (if Find(row, keys[0]).Some? then [p.quote(keys[0]) + ":" + p.show(Find(row, keys[0]).value)] else [])
      + Members(p, keys[1..], row)
  }

  ghost function RowTexts(p: Printer, keys: seq<string>, rows: seq<Row>): seq<string> {
    if rows == [] then [] else ["{" + Commas(Members(p, keys, rows[0])) + "}"] + RowTexts(p, keys, rows[1..])
  }

  lemma CommasOfMore(part: string, rest: seq<string>)
    ensures Commas([part] + rest) == part + ((if rest == [] then "" else ",") + Commas(rest))
  {
    assert ([part] + rest)[1..] == rest;
  }

  lemma {:induction false} MembersAreJoined(p: Printer, keys: seq<string>, row: Row)
    ensures MembersText(p, keys, row, true) == Commas(Members(p, keys, row))
    ensures MembersText(p, keys, row, false)
         == (if Members(p, keys, row) == [] then "" else ",") + Commas(Members(p, keys, row))
  {
    if keys != [] {
      MembersAreJoined(p, keys[1..], row);
      var rest := Members(p, keys[1..], row);
      if Find(row, keys[0]).Some? {
        CommasOfMore(p.quote(keys[0]) + ":" + p.show(Find(row, keys[0]).value), rest);
      } else {
        assert [] + rest == rest;
      }
    }
  }

  lemma Regroup(a: string, b: string, c: string, d: string, e: string)
    ensures a + b + c + d + e == a + ((b + c + d) + e)
  {
  }

  lemma {:induction false} RowsAreJoined(p: Printer, keys: seq<string>, rows: seq<Row>, first: bool)
    ensures RowsText(p, keys, rows, first)
         == (if rows == [] then "" else Separator(first)) + Commas(RowTexts(p, keys, rows))
    decreases |rows|
  {
    if rows == [] {
      assert "" + "" == "";
    } else {
      var members, rest := Commas(Members(p, keys, rows[0])), RowTexts(p, keys, rows[1..]);
      RowsAreJoined(p, keys, rows[1..], false);
      MembersAreJoined(p, keys, rows[0]);
      CommasOfMore("{" + members + "}", rest);
      Regroup(Separator(first), "{", members, "}", RowsText(p, keys, rows[1..], false));
    }
  }

  /** The text is a JSON array of objects: in brackets and braces, with commas between, keys as sorted. */
  lemma TextIsJson(sort: seq<string> -> seq<string>, p: Printer, rows: seq<Row>)
    ensures SerializeRecords(sort, p, rows)
         == "[" + (if rows == [] then "" else Commas(RowTexts(p, sort(KeysOf(rows[0])), rows))) + "]"
  {
    if rows != [] {
      RowsAreJoined(p, sort(KeysOf(rows[0])), rows, true);
    }
  }

  // ---------------------------------------------------------------------------------------------
  // The order of insertion does not matter
  // ---------------------------------------------------------------------------------------------

  ghost predicate SameFields(a: Row, b: Row) {
    Distinct(KeysOf(a)) && Distinct(KeysOf(b)) && forall f :: f in a <==> f in b
  }

  lemma SameFind(a: Row, b: Row, key: string)
    requires SameFields(a, b)
    ensures Find(a, key) == Find(b, key)
  {
    if Find(a, key).Some? {
      FindField(b, Field(key, Find(a, key).value));
    } else if Find(b, key).Some? {
      FindField(a, Field(key, Find(b, key).value));
    }
  }

  lemma SameKeys(a: Row, b: Row)
    requires SameFields(a, b)
    ensures forall k :: k in KeysOf(a) <==> k in KeysOf(b)
  {
    forall k
      ensures k in KeysOf(a) <==> k in KeysOf(b)
    {
      SameFind(a, b, k);
    }
  }

  lemma {:induction false} SameMembers(p: Printer, keys: seq<string>, a: Row, b: Row, first: bool)
    requires SameFields(a, b)
    ensures MembersText(p, keys, a, first) == MembersText(p, keys, b, first)
  {
    if keys != [] {
      SameFind(a, b, keys[0]);
      SameMembers(p, keys[1..], a, b, first && Find(a, keys[0]).None?);
    }
  }

  lemma {:induction false} SameRows(p: Printer, keys: seq<string>, rows: seq<Row>, others: seq<Row>, first: bool)
    requires |rows| == |others| && forall i :: 0 <= i < |rows| ==> SameFields(rows[i], others[i])
    ensures RowsText(p, keys, rows, first) == RowsText(p, keys, others, first)
  {
    if rows != [] {
      SameMembers(p, keys, rows[0], others[0], true);
      SameRows(p, keys, rows[1..], others[1..], false);
    }
  }

  /** Rows with the same fields, in whatever order they were inserted, give the same text. */
  lemma InsertionOrderIgnored(sort: seq<string> -> seq<string>, p: Printer, rows: seq<Row>, others: seq<Row>)
    requires Sorts(sort)
    requires |rows| == |others| && forall i :: 0 <= i < |rows| ==> SameFields(rows[i], others[i])
    ensures SerializeRecords(sort, p, rows) == SerializeRecords(sort, p, others)
  {
    if rows != [] {
      SameKeys(rows[0], others[0]);
      assert SortsAlike(sort, KeysOf(rows[0]), KeysOf(others[0]));
      SameRows(p, sort(KeysOf(rows[0])), rows, others, true);
    }
  }

  // ---------------------------------------------------------------------------------------------
  // The text determines the values of the listed properties
  // ---------------------------------------------------------------------------------------------

  ghost predicate HasAll(row: Row, keys: seq<string>) {
    forall k :: k in keys ==> Find(row, k).Some?
  }

  ghost predicate Agree(a: Row, b: Row, keys: seq<string>) {
    forall k :: k in keys ==> Find(a, k) == Find(b, k)
  }

  lemma CutFront(front: string, a: string, b: string)
    requires front + a == front + b
    ensures a == b
  {
    assert a == (front + a)[|front|..] == (front + b)[|front|..] == b;
  }

  // One property: the same value, and the same text behind it.
  lemma ValueDetermined(p: Printer, front: string, v: Value, w: Value, x: string, y: string)
    requires p.Lawful() && Delimits(x) && Delimits(y)
    requires front + p.show(v) + x == front + p.show(w) + y
    ensures v == w && x == y
  {
    assert front + (p.show(v) + x) == front + p.show(v) + x;
    assert front + (p.show(w) + y) == front + p.show(w) + y;
    CutFront(front, p.show(v) + x, p.show(w) + y);
    assert p.Apart(v, w, x, y);
    CutFront(p.show(v), x, y);
  }

  lemma {:induction false} MembersDelimited(p: Printer, keys: seq<string>, row: Row, x: string)
    ensures Delimits(MembersText(p, keys, row, false) + ("}" + x))
  {
    if keys != [] {
      MembersDelimited(p, keys[1..], row, x);
    }
  }

  // The text of the properties, up to the first value, and behind it.
  lemma MembersSplit(p: Printer, keys: seq<string>, row: Row, first: bool, x: string)
    requires keys != [] && Find(row, keys[0]).Some?
    ensures MembersText(p, keys, row, first) + ("}" + x)
         == Separator(first) + p.quote(keys[0]) + ":" + p.show(Find(row, keys[0]).value)
            + (MembersText(p, keys[1..], row, false) + ("}" + x))
  {
  }

  lemma AgreeMore(a: Row, b: Row, keys: seq<string>)
    requires keys != [] && Find(a, keys[0]) == Find(b, keys[0]) && Agree(a, b, keys[1..])
    ensures Agree(a, b, keys)
  {
    assert keys == [keys[0]] + keys[1..];
  }

  lemma {:induction false} MembersDetermine(p: Printer, keys: seq<string>, a: Row, b: Row, first: bool, x: string,
                                            y: string)
    requires p.Lawful() && HasAll(a, keys) && HasAll(b, keys)
    requires MembersText(p, keys, a, first) + ("}" + x) == MembersText(p, keys, b, first) + ("}" + y)
    ensures Agree(a, b, keys) && x == y
    decreases |keys|
  {
    if keys == [] {
      assert "" + ("}" + x) == "}" + x && "" + ("}" + y) == "}" + y;
      CutFront("}", x, y);
    } else {
      var k, rest := keys[0], keys[1..];
      MembersSplit(p, keys, a, first, x);
      MembersSplit(p, keys, b, first, y);
      MembersDelimited(p, rest, a, x);
      MembersDelimited(p, rest, b, y);
      ValueDetermined(p, Separator(first) + p.quote(k) + ":", Find(a, k).value, Find(b, k).value,
                      MembersText(p, rest, a, false) + ("}" + x), MembersText(p, rest, b, false) + ("}" + y));
      MembersDetermine(p, rest, a, b, false, x, y);
      AgreeMore(a, b, keys);
    }
  }

  lemma RowsSplit(p: Printer, keys: seq<string>, rows: seq<Row>, first: bool)
    requires rows != []
    ensures RowsText(p, keys, rows, first) + "]"
         == Separator(first) + "{"
            + (MembersText(p, keys, rows[0], true) + ("}" + (RowsText(p, keys, rows[1..], false) + "]")))
  {
  }

  // The first row is determined, and the text behind it.
  lemma FirstRowDetermined(p: Printer, keys: seq<string>, rows: seq<Row>, others: seq<Row>, first: bool)
    requires p.Lawful() && rows != [] && others != [] && HasAll(rows[0], keys) && HasAll(others[0], keys)
    requires RowsText(p, keys, rows, first) + "]" == RowsText(p, keys, others, first) + "]"
    ensures Agree(rows[0], others[0], keys)
    ensures RowsText(p, keys, rows[1..], false) + "]" == RowsText(p, keys, others[1..], false) + "]"
  {
    var x, y := RowsText(p, keys, rows[1..], false) + "]", RowsText(p, keys, others[1..], false) + "]";
    RowsSplit(p, keys, rows, first);
    RowsSplit(p, keys, others, first);
    CutFront(Separator(first) + "{", MembersText(p, keys, rows[0], true) + ("}" + x),
             MembersText(p, keys, others[0], true) + ("}" + y));
    MembersDetermine(p, keys, rows[0], others[0], true, x, y);
  }

  // Only the text of no rows starts with the closing bracket.
  lemma EmptyText(p: Printer, keys: seq<string>, rows: seq<Row>, first: bool)
    ensures rows == [] <==> (RowsText(p, keys, rows, first) + "]")[0] == ']'
  {
  }

  lemma {:induction false} RowsDetermine(p: Printer, keys: seq<string>, rows: seq<Row>, others: seq<Row>, first: bool)
    requires p.Lawful()
    requires (forall r :: r in rows ==> HasAll(r, keys)) && forall r :: r in others ==> HasAll(r, keys)
    requires RowsText(p, keys, rows, first) + "]" == RowsText(p, keys, others, first) + "]"
    ensures |rows| == |others| && forall i :: 0 <= i < |rows| ==> Agree(rows[i], others[i], keys)
    decreases |rows|
  {
    EmptyText(p, keys, rows, first);
    EmptyText(p, keys, others, first);
    if rows != [] {
      FirstRowDetermined(p, keys, rows, others, first);
      RowsDetermine(p, keys, rows[1..], others[1..], false);
    }
  }

  // ---------------------------------------------------------------------------------------------
  // The records of a flush
  // ---------------------------------------------------------------------------------------------

  const FLAT_KEYS: seq<string> := [
    "hostname", "endpoint", "timestamp", "status_code", "latency_ms", "classification", "payment_protocol",
    "payment_amount", "payment_asset", "payment_network", "payer_address", "recipient_address", "tx_hash",
    "settlement_success"]

  function ClassText(c: Classification): string {
    match c
    case Success => "success"
    case Timeout => "timeout"
    case ClientError => "client_error"
    case ServerError => "server_error"
    case SchemaMismatch => "schema_mismatch"
  }

  // An integer as a number: doubled until the mantissa has 53 bits.
  function Shift(m: SafeInt, e: int): Double
    requires MIN_EXPONENT <= e <= 0
    decreases e - MIN_EXPONENT
  {
    if e == MIN_EXPONENT || LEAST_53_BITS <= m || m <= -LEAST_53_BITS then Binary64(m, e) else Shift(2 * m, e - 1)
  }

  function FromInt(n: SafeInt): Double {
    Shift(n, 0)
  }

  ghost function Unshift(m: int, e: int): int
    decreases -e
  {
    if 0 <= e then m else Unshift(m / 2, e + 1)
  }

  lemma {:induction false} ShiftBack(m: SafeInt, e: int)
    requires MIN_EXPONENT <= e <= 0
    ensures Unshift(Shift(m, e).mantissa, Shift(m, e).exponent) == Unshift(m, e)
    decreases e - MIN_EXPONENT
  {
    if !(e == MIN_EXPONENT || LEAST_53_BITS <= m || m <= -LEAST_53_BITS) {
      ShiftBack(2 * m, e - 1);
    }
  }

  lemma FromIntInjective(m: SafeInt, n: SafeInt)
    ensures FromInt(m) == FromInt(n) <==> m == n
  {
    ShiftBack(m, 0);
    ShiftBack(n, 0);
  }

  function PaymentValues(payment: Option<Payment>): (values: seq<Value>)
    ensures |values| == 8
  {
    match payment
    case None => [Null, Null, Null, Null, Null, Null, Null, Null]
    case Some(p) => [Text(p.protocol), Number(p.amount), Text(p.asset), Text(p.network), Text(p.payerAddress),
                     Text(p.recipientAddress), Text(p.txHash), Flag(p.settlementSuccess)]
  }

  function FlatValues(r: CallRecord): (values: seq<Value>)
    ensures |values| == |FLAT_KEYS|
  {
    [Text(r.hostname), Text(r.endpoint), Text(r.timestamp), Number(FromInt(r.statusCode)),
     Number(FromInt(r.latencyMs)), Text(ClassText(r.classification))] + PaymentValues(r.payment)
  }

  // What doFlush makes of a record.
  function Flat(r: CallRecord): (row: Row)
    ensures |row| == |FLAT_KEYS|
    ensures forall i :: 0 <= i < |row| ==> row[i] == Field(FLAT_KEYS[i], FlatValues(r)[i])
  {
    seq(|FLAT_KEYS|, i requires 0 <= i < |FLAT_KEYS| => Field(FLAT_KEYS[i], FlatValues(r)[i]))
  }

  function FlatAll(batch: seq<CallRecord>): (rows: seq<Row>)
    ensures |rows| == |batch| && forall i :: 0 <= i < |batch| ==> rows[i] == Flat(batch[i])
  {
    seq(|batch|, i requires 0 <= i < |batch| => Flat(batch[i]))
  }

  // The flag of the store is the only thing that is not sent.
  ghost predicate SameCall(r: CallRecord, q: CallRecord) {
    r.(synced := false) == q.(synced := false)
  }

  // Length and fourth character tell the keys apart.
  lemma FlatKeysDiffer()
    ensures Distinct(FLAT_KEYS)
  {
    var lengths := [8, 8, 9, 11, 10, 14, 16, 14, 13, 15, 13, 17, 7, 18];
    var fourths := "tpetesmmmmeiht";
    assert forall i :: 0 <= i < 14 ==> |FLAT_KEYS[i]| == lengths[i] && FLAT_KEYS[i][3] == fourths[i];
    assert forall i, j :: 0 <= i < j < 14 ==> lengths[i] != lengths[j] || fourths[i] != fourths[j];
  }

  lemma ClassTextsDiffer(c: Classification, d: Classification)
    ensures ClassText(c) == ClassText(d) <==> c == d
  {
    assert |ClassText(c)| == (match c case Success => 7 case Timeout => 7 case SchemaMismatch => 15 case _ => 12);
    assert |ClassText(d)| == (match d case Success => 7 case Timeout => 7 case SchemaMismatch => 15 case _ => 12);
    assert ClassText(c)[0] == (match c case Timeout => 't' case ClientError => 'c' case _ => 's');
    assert ClassText(d)[0] == (match d case Timeout => 't' case ClientError => 'c' case _ => 's');
  }

  lemma PaymentsDiffer(a: Option<Payment>, b: Option<Payment>)
    requires PaymentValues(a) == PaymentValues(b)
    ensures a == b
  {
    var v, w := PaymentValues(a), PaymentValues(b);
    assert v[0] == w[0] && v[1] == w[1] && v[2] == w[2] && v[3] == w[3];
    assert v[4] == w[4] && v[5] == w[5] && v[6] == w[6] && v[7] == w[7];
  }

  lemma FlatDetermines(r: CallRecord, q: CallRecord)
    ensures FlatValues(r) == FlatValues(q) <==> SameCall(r, q)
  {
    var v, w := FlatValues(r), FlatValues(q);
    if v == w {
      assert v[0] == w[0] && v[1] == w[1] && v[2] == w[2] && v[3] == w[3] && v[4] == w[4] && v[5] == w[5];
      FromIntInjective(r.statusCode, q.statusCode);
      FromIntInjective(r.latencyMs, q.latencyMs);
      ClassTextsDiffer(r.classification, q.classification);
      assert v[6..] == PaymentValues(r.payment) && w[6..] == PaymentValues(q.payment);
      PaymentsDiffer(r.payment, q.payment);
    }
  }

  lemma FlatFind(r: CallRecord, i: nat)
    requires i < |FLAT_KEYS|
    ensures Find(Flat(r), FLAT_KEYS[i]) == Some(FlatValues(r)[i])
  {
    FlatKeysDiffer();
    assert KeysOf(Flat(r)) == FLAT_KEYS;
    assert Flat(r)[i] in Flat(r);
    FindField(Flat(r), Flat(r)[i]);
  }

  lemma FlatAt(r: CallRecord, i: nat)
    requires i < 14
    ensures Flat(r)[i] == Field(FLAT_KEYS[i], FlatValues(r)[i])
    ensures 6 <= i ==> FlatValues(r)[i] == PaymentValues(r.payment)[i - 6]
  {
  }

  /** What is sent for a record, key by key: its own fields ... */
  lemma FlatMeaning(r: CallRecord)
    ensures Flat(r)[0] == Field("hostname", Text(r.hostname))
    ensures Flat(r)[1] == Field("endpoint", Text(r.endpoint))
    ensures Flat(r)[2] == Field("timestamp", Text(r.timestamp))
    ensures Flat(r)[3] == Field("status_code", Number(FromInt(r.statusCode)))
    ensures Flat(r)[4] == Field("latency_ms", Number(FromInt(r.latencyMs)))
    ensures Flat(r)[5] == Field("classification", Text(ClassText(r.classification)))
  {
  }

  /** ... and those of its payment, which are null if there is none. */
  lemma PaymentMeaning(r: CallRecord)
    ensures Flat(r)[6] == Field("payment_protocol", if r.payment.Some? then Text(r.payment.value.protocol) else Null)
    ensures Flat(r)[7] == Field("payment_amount", if r.payment.Some? then Number(r.payment.value.amount) else Null)
    ensures Flat(r)[8] == Field("payment_asset", if r.payment.Some? then Text(r.payment.value.asset) else Null)
    ensures Flat(r)[9] == Field("payment_network", if r.payment.Some? then Text(r.payment.value.network) else Null)
    ensures Flat(r)[10] == Field("payer_address", if r.payment.Some? then Text(r.payment.value.payerAddress) else Null)
    ensures Flat(r)[11]
         == Field("recipient_address", if r.payment.Some? then Text(r.payment.value.recipientAddress) else Null)
    ensures Flat(r)[12] == Field("tx_hash", if r.payment.Some? then Text(r.payment.value.txHash) else Null)
    ensures Flat(r)[13]
         == Field("settlement_success", if r.payment.Some? then Flag(r.payment.value.settlementSuccess) else Null)
  {
    forall i: nat | 6 <= i < 14
      ensures Flat(r)[i] == Field(FLAT_KEYS[i], PaymentValues(r.payment)[i - 6])
    {
      FlatAt(r, i);
    }
  }

  lemma FlatAgree(r: CallRecord, q: CallRecord, keys: seq<string>)
    requires Agree(Flat(r), Flat(q), keys) && forall k :: k in keys <==> k in FLAT_KEYS
    ensures SameCall(r, q)
  {
    forall i: nat | i < |FLAT_KEYS|
      ensures FlatValues(r)[i] == FlatValues(q)[i]
    {
      FlatFind(r, i);
      FlatFind(q, i);
      assert FLAT_KEYS[i] in keys;
    }
    assert FlatValues(r) == FlatValues(q);
    FlatDetermines(r, q);
  }

  lemma FlatHasAll(r: CallRecord, keys: seq<string>)
    requires forall k :: k in keys <==> k in FLAT_KEYS
    ensures HasAll(Flat(r), keys)
  {
    assert KeysOf(Flat(r)) == FLAT_KEYS;
  }

  lemma TextOfFlat(sort: seq<string> -> seq<string>, p: Printer, batch: seq<CallRecord>)
    ensures SerializeRecords(sort, p, FlatAll(batch))
         == "[" + (RowsText(p, sort(FLAT_KEYS), FlatAll(batch), true) + "]")
  {
    if batch != [] {
      assert KeysOf(Flat(batch[0])) == FLAT_KEYS;
    }
  }

  /**
   The signed text of a flush drops nothing: two batches have the same text exactly if they consist of the
   same calls, in the same order.
   */
  lemma SignedTextDetermines(sort: seq<string> -> seq<string>, p: Printer, batch: seq<CallRecord>,
                             other: seq<CallRecord>)
    requires Sorts(sort) && p.Lawful()
    ensures SerializeRecords(sort, p, FlatAll(batch)) == SerializeRecords(sort, p, FlatAll(other))
       <==> |batch| == |other| && forall i :: 0 <= i < |batch| ==> SameCall(batch[i], other[i])
  {
    var rows, others := FlatAll(batch), FlatAll(other);
    var keys := sort(FLAT_KEYS);
    assert SortsAlike(sort, FLAT_KEYS, FLAT_KEYS);
    TextOfFlat(sort, p, batch);
    TextOfFlat(sort, p, other);
    if SerializeRecords(sort, p, rows) == SerializeRecords(sort, p, others) {
      CutFront("[", RowsText(p, keys, rows, true) + "]", RowsText(p, keys, others, true) + "]");
      forall r | r in rows + others
        ensures HasAll(r, keys)
      {
        var c :| r == Flat(c);
        FlatHasAll(c, keys);
      }
      RowsDetermine(p, keys, rows, others, true);
      forall i | 0 <= i < |batch|
        ensures SameCall(batch[i], other[i])
      {
        assert Agree(rows[i], others[i], keys);
        FlatAgree(batch[i], other[i], keys);
      }
    }
    if |batch| == |other| && forall i :: 0 <= i < |batch| ==> SameCall(batch[i], other[i]) {
      forall i | 0 <= i < |batch|
        ensures rows[i] == others[i]
      {
        FlatDetermines(batch[i], other[i]);
      }
      assert rows == others;
    }
  }
}
