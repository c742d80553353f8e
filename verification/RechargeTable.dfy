/** The recharge history table, read by its headings. Headings are taken in normalised form. */
module RechargeTable {
  import opened Prelude
  import opened Portal
  import opened PortalText
  import PortalStamps

  const SN := "ক্র নং"
  const TOKEN := "টোকেন নম্বর"
  const METER_RENT := "মিটার রেন্ট (টাকা)"
  const DEMAND_CHARGE := "ডিমান্ড চার্জ (টাকা)"
  const VAT := "ভ্যাট (টাকা)"
  const CONCESSION := "রেয়াত (টাকা)"
  const USABLE := "বিদ্যুৎ (টাকা)"
  const RECHARGE_AMOUNT := "রিচার্জের পরিমাণ (টাকা)"
  const RECHARGE_METHOD := "রিচার্জের মাধ্যম"
  const RECHARGE_DATE := "রিচার্জের তারিখ"
  const RECHARGE_STATUS := "রিমোট রিচার্জ স্ট্যাটাস"

  const WANTED := [SN, TOKEN, METER_RENT, DEMAND_CHARGE, VAT, CONCESSION, USABLE, RECHARGE_AMOUNT,
                   RECHARGE_METHOD, RECHARGE_DATE, RECHARGE_STATUS]

  datatype PortalTable = PortalTable(headers: seq<string>, rows: seq<seq<string>>)

  datatype LayoutError =
    | NoTable
    | MissingColumn(heading: string)
    | MissingCell(heading: string)
    | NotANumber(heading: string)
    | NotADate

  // ---------------------------------------------------------------- amounts

  function DropCommas(s: string): string {
    if s == [] then [] else (if s[0] == ',' then [] else [s[0]]) + DropCommas(s[1..])
  }

  function Cleaned(raw: string): string {
    Trim(DropCommas(ToAsciiDigits(raw)))
  }

  function Pow10(n: nat): nat
    ensures Pow10(n) > 0
  {
    if n == 0 then 1 else 10 * Pow10(n - 1)
  }

  /** A plain decimal without a sign: digits, and possibly a point and more digits. */
  function ReadDecimal(s: string): Option<real> {
    var (whole, digits, rest) := TakeDigits(s, |s|, 0, 0);
    if rest == [] then (if digits == 0 then None else Some(whole as real))
    else if rest[0] != '.' then None
    else
      var (all, decimals, rest') := TakeDigits(rest[1..], |rest|, whole, 0);
      if rest' != [] || digits + decimals == 0 then None else Some(all as real / Pow10(decimals) as real)
  }

  /** A cell's number: blank or a dash is nothing, commas and the script of the digits do not matter. */
  function ParseAmount(raw: string): Option<real> {
    var cleaned := Cleaned(raw);
    if cleaned == "" || cleaned == "-" then Some(0.0)
    else if cleaned[0] == '-' then
      var x :- ReadDecimal(cleaned[1..]);
      Some(-x)
    else if cleaned[0] == '+' then ReadDecimal(cleaned[1..])
    else ReadDecimal(cleaned)
  }

  // ---------------------------------------------------------------- columns and cells

  /** The first column under a heading. */
  function RequireColumn(headers: seq<string>, heading: string): (r: Result<nat, LayoutError>)
    ensures r.Ok? ==> r.value < |headers| && headers[r.value] == heading
                      && forall j :: 0 <= j < r.value ==> headers[j] != heading
    ensures r.Err? ==> r.error == MissingColumn(heading) && heading !in headers
  {
    if headers == [] then Err(MissingColumn(heading))
    else if headers[0] == heading then Ok(0)
    else
      var index :- RequireColumn(headers[1..], heading);
      Ok(index + 1)
  }

  function RequireCell(row: seq<string>, index: nat, heading: string): Result<string, LayoutError> {
    if index < |row| then Ok(row[index]) else Err(MissingCell(heading))
  }

  function Amount(cell: Result<string, LayoutError>, heading: string): Result<real, LayoutError> {
    var text :- cell;
    var amount := ParseAmount(text);
    if amount.Some? then Ok(amount.value) else Err(NotANumber(heading))
  }

  function RechargedAt(cell: Result<string, LayoutError>): Result<int, LayoutError> {
    var text :- cell;
    var date := PortalStamps.ParseRechargeDate(text);
    if date.Some? then Ok(date.value) else Err(NotADate)
  }

  function ToLowerCase(s: string): string {
    seq(|s|, i requires 0 <= i < |s| => if 'A' <= s[i] <= 'Z' then (s[i] as int + 32) as char else s[i])
  }

  /** Where each wanted heading was found, in the order of `WANTED`. */
  function ColumnsOf(headers: seq<string>, wanted: seq<string>): (r: Result<seq<nat>, LayoutError>)
    ensures r.Ok? ==> |r.value| == |wanted|
  {
    if wanted == [] then Ok([])
    else
      var first :- RequireColumn(headers, wanted[0]);
      var rest :- ColumnsOf(headers, wanted[1..]);
      Ok([first] + rest)
  }

  /** The cells of a row under the wanted headings, in the order of `WANTED`; one may be missing. */
  function CellsUnder(row: seq<string>, c: seq<nat>, wanted: seq<string>): (r: seq<Result<string, LayoutError>>)
    requires |c| == |wanted|
    ensures |r| == |wanted|
    ensures forall k :: 0 <= k < |wanted| ==> r[k] == RequireCell(row, c[k], wanted[k])
  {
    seq(|wanted|, k requires 0 <= k < |wanted| => RequireCell(row, c[k], wanted[k]))
  }

  /** Each cell of a row as text and as an amount, and the recharge date. */
  datatype Readings = Readings(
    texts: seq<Result<string, LayoutError>>,
    amounts: seq<Result<real, LayoutError>>,
    date: Result<int, LayoutError>)
  {
    predicate Full() { |texts| == |amounts| == |WANTED| }
  }

  function ReadingsOf(cells: seq<Result<string, LayoutError>>): (r: Readings)
    requires |cells| == |WANTED|
    ensures r.Full()
  {
    Readings(cells, seq(|WANTED|, k requires 0 <= k < |WANTED| => Amount(cells[k], WANTED[k])), RechargedAt(cells[9]))
  }

  /** The fields are taken one after another; the first that could not be read is the error. */
  function FromReadings(r: Readings): Result<Recharge, LayoutError>
    requires r.Full()
  {
    var sn :- r.amounts[0];
    var token :- r.texts[1];
    var meterRent :- r.amounts[2];
    var demandCharge :- r.amounts[3];
    var vat :- r.amounts[4];
    var concession :- r.amounts[5];
    var rechargeAmount :- r.amounts[7];
    var usable :- r.amounts[6];
    var channel :- r.texts[8];
    var date :- r.date;
    var status :- r.texts[10];
    Ok(Recharge(sn, token, meterRent, demandCharge, vat, concession, rechargeAmount, usable, channel, date,
                ToLowerCase(status)))
  }

  function ParseRow(row: seq<string>, c: seq<nat>): Result<Recharge, LayoutError>
    requires |c| == |WANTED|
  {
    FromReadings(ReadingsOf(CellsUnder(row, c, WANTED)))
  }

  function ParseRows(rows: seq<seq<string>>, c: seq<nat>): Result<seq<Recharge>, LayoutError>
    requires |c| == |WANTED|
  {
    if rows == [] then Ok([])
    else
      var first :- ParseRow(rows[0], c);
      var rest :- ParseRows(rows[1..], c);
      Ok([first] + rest)
  }

  function ParseRechargeHistory(table: Option<PortalTable>): Result<seq<Recharge>, LayoutError> {
    if table.None? then Err(NoTable)
    else
      var columns :- ColumnsOf(table.value.headers, WANTED);
      ParseRows(table.value.rows, columns)
  }

  // ---------------------------------------------------------------- reading by heading

  ghost predicate Injective(f: seq<nat>) {
    forall i, j :: 0 <= i < j < |f| ==> f[i] != f[j]
  }

  /** Row by row, the cell of column `i` in one table is the cell of column `f[i]` in the other,
      and is missing there exactly when it is missing here. */
  ghost predicate CellsMoved(row: seq<string>, moved: seq<string>, f: seq<nat>) {
    forall i :: 0 <= i < |f| ==> (i < |row| <==> f[i] < |moved|) && (i < |row| ==> moved[f[i]] == row[i])
  }

  /** One table is another with its columns rearranged by `f` and unrelated columns put in anywhere:
      no column that was added, and no second one, bears a wanted heading. */
  ghost predicate Rearranged(t: PortalTable, u: PortalTable, f: seq<nat>, wanted: seq<string>) {
    && |f| == |t.headers| && |u.rows| == |t.rows| && Injective(f)
    && (forall i :: 0 <= i < |f| ==> f[i] < |u.headers| && u.headers[f[i]] == t.headers[i])
    && (forall j :: 0 <= j < |u.headers| && u.headers[j] in wanted ==> j in f)
    && (forall i, j :: 0 <= i < j < |t.headers| && t.headers[i] in wanted ==> t.headers[i] != t.headers[j])
    && (forall r :: 0 <= r < |t.rows| ==> CellsMoved(t.rows[r], u.rows[r], f))
  }

  /** A wanted heading is found in both tables, in corresponding columns, or in neither. */
  lemma ColumnMoves(t: PortalTable, u: PortalTable, f: seq<nat>, wanted: seq<string>, heading: string)
    requires Rearranged(t, u, f, wanted) && heading in wanted
    ensures var a, b := RequireColumn(t.headers, heading), RequireColumn(u.headers, heading);
            if a.Ok? then b == Ok(f[a.value]) else b == Err(a.error)
  {
    var a, b := RequireColumn(t.headers, heading), RequireColumn(u.headers, heading);
    if b.Ok? {
      var i :| 0 <= i < |f| && f[i] == b.value;
      assert t.headers[i] == heading;
    } else if a.Ok? {
      assert u.headers[f[a.value]] == heading;
    }
  }

  ghost predicate Corresponds(a: Result<seq<nat>, LayoutError>, b: Result<seq<nat>, LayoutError>, f: seq<nat>) {
    if a.Ok?
    then
      && b.Ok? && |b.value| == |a.value|
      && forall k :: 0 <= k < |a.value| ==> a.value[k] < |f| && b.value[k] == f[a.value[k]]
    else b == Err(a.error)
  }

  lemma {:induction false} ColumnsMove(t: PortalTable, u: PortalTable, f: seq<nat>, wanted: seq<string>, k: nat)
    requires Rearranged(t, u, f, wanted) && k <= |wanted|
    ensures Corresponds(ColumnsOf(t.headers, wanted[k..]), ColumnsOf(u.headers, wanted[k..]), f)
    decreases |wanted| - k
  {
    if k < |wanted| {
      ColumnMoves(t, u, f, wanted, wanted[k]);
      ColumnsMove(t, u, f, wanted, k + 1);
      assert wanted[k..][1..] == wanted[k + 1..];
      OneColumnMore(t.headers, u.headers, f, wanted[k..]);
    }
  }

  lemma OneColumnMore(headers: seq<string>, moved: seq<string>, f: seq<nat>, wanted: seq<string>)
    requires wanted != []
    requires var a, b := RequireColumn(headers, wanted[0]), RequireColumn(moved, wanted[0]);
             if a.Ok? then a.value < |f| && b == Ok(f[a.value]) else b == Err(a.error)
    requires Corresponds(ColumnsOf(headers, wanted[1..]), ColumnsOf(moved, wanted[1..]), f)
    ensures Corresponds(ColumnsOf(headers, wanted), ColumnsOf(moved, wanted), f)
  {
  }

  lemma CellsMove(row: seq<string>, moved: seq<string>, f: seq<nat>, c: seq<nat>, d: seq<nat>, wanted: seq<string>)
    requires CellsMoved(row, moved, f) && |c| == |d| == |wanted|
    requires forall k :: 0 <= k < |c| ==> c[k] < |f| && d[k] == f[c[k]]
    ensures CellsUnder(moved, d, wanted) == CellsUnder(row, c, wanted)
  {
  }

  lemma {:induction false} RowsMove(rows: seq<seq<string>>, moved: seq<seq<string>>, f: seq<nat>, c: seq<nat>, d: seq<nat>)
    requires |rows| == |moved| && forall r :: 0 <= r < |rows| ==> CellsMoved(rows[r], moved[r], f)
    requires |c| == |d| == |WANTED| && forall k :: 0 <= k < |c| ==> c[k] < |f| && d[k] == f[c[k]]
    ensures ParseRows(moved, d) == ParseRows(rows, c)
  {
    if rows != [] {
      CellsMove(rows[0], moved[0], f, c, d, WANTED);
      RowsMove(rows[1..], moved[1..], f, c, d);
    }
  }

  /** Rearranging the columns, or adding unrelated ones, changes neither the history read nor the error raised. */
  lemma ReadsByHeading(t: PortalTable, u: PortalTable, f: seq<nat>)
    requires Rearranged(t, u, f, WANTED)
    ensures ParseRechargeHistory(Some(u)) == ParseRechargeHistory(Some(t))
  {
    ColumnsMove(t, u, f, WANTED, 0);
    assert WANTED[0..] == WANTED;
    var a, b := ColumnsOf(t.headers, WANTED), ColumnsOf(u.headers, WANTED);
    if a.Ok? {
      RowsMove(t.rows, u.rows, f, a.value, b.value);
    }
  }

  // ---------------------------------------------------------------- each field from its own heading

  /** Column `j` is the first under a heading, and row `r` has a cell there. */
  ghost predicate Under(t: PortalTable, r: nat, heading: string, j: nat) {
    && r < |t.rows| && j < |t.headers| && j < |t.rows[r]|
    && t.headers[j] == heading && forall i :: 0 <= i < j ==> t.headers[i] != heading
  }

  ghost predicate HasText(t: PortalTable, r: nat, heading: string, text: string) {
    exists j: nat :: Under(t, r, heading, j) && t.rows[r][j] == text
  }

  ghost predicate HasAmount(t: PortalTable, r: nat, heading: string, x: real) {
    exists j: nat :: Under(t, r, heading, j) && ParseAmount(t.rows[r][j]) == Some(x)
  }

  ghost predicate HasDate(t: PortalTable, r: nat, heading: string, at: int) {
    exists j: nat :: Under(t, r, heading, j) && PortalStamps.ParseRechargeDate(t.rows[r][j]) == Some(at)
  }

  /** A recharge says what row `r` says under each heading: by value, whatever the columns' order. */
  ghost predicate Describes(recharge: Recharge, t: PortalTable, r: nat) {
    && HasAmount(t, r, SN, recharge.sn)
    && HasText(t, r, TOKEN, recharge.token)
    && HasAmount(t, r, METER_RENT, recharge.meterRentAmount)
    && HasAmount(t, r, DEMAND_CHARGE, recharge.demandChargeAmount)
    && HasAmount(t, r, VAT, recharge.vatAmount)
    && HasAmount(t, r, CONCESSION, recharge.concessionAmount)
    && HasAmount(t, r, USABLE, recharge.usableAmount)
    && HasAmount(t, r, RECHARGE_AMOUNT, recharge.rechargeAmount)
    && HasText(t, r, RECHARGE_METHOD, recharge.rechargeMethod)
    && HasDate(t, r, RECHARGE_DATE, recharge.rechargedDate)
    && exists status :: HasText(t, r, RECHARGE_STATUS, status) && recharge.rechargeStatus == ToLowerCase(status)
  }

  lemma {:induction false} ColumnsAreFirst(headers: seq<string>, wanted: seq<string>, k: nat)
    requires ColumnsOf(headers, wanted).Ok? && k < |wanted|
    ensures RequireColumn(headers, wanted[k]) == Ok(ColumnsOf(headers, wanted).value[k])
  {
    if k > 0 {
      ColumnsAreFirst(headers, wanted[1..], k - 1);
    }
  }

  lemma CellIsUnder(t: PortalTable, r: nat, c: seq<nat>, k: nat, wanted: seq<string>)
    requires ColumnsOf(t.headers, wanted) == Ok(c) && r < |t.rows| && k < |wanted|
    requires CellsUnder(t.rows[r], c, wanted)[k].Ok?
    ensures Under(t, r, wanted[k], c[k]) && CellsUnder(t.rows[r], c, wanted)[k].value == t.rows[r][c[k]]
  {
    ColumnsAreFirst(t.headers, wanted, k);
  }

  /** What a row that reads well is made of. */
  lemma FieldsOfReadings(r: Readings)
    requires r.Full() && FromReadings(r).Ok?
    ensures var x := FromReadings(r).value;
            && r.amounts[0] == Ok(x.sn) && r.texts[1] == Ok(x.token) && r.amounts[2] == Ok(x.meterRentAmount)
            && r.amounts[3] == Ok(x.demandChargeAmount) && r.amounts[4] == Ok(x.vatAmount)
            && r.amounts[5] == Ok(x.concessionAmount) && r.amounts[6] == Ok(x.usableAmount)
            && r.amounts[7] == Ok(x.rechargeAmount) && r.texts[8] == Ok(x.rechargeMethod) && r.date == Ok(x.rechargedDate)
            && r.texts[10].Ok? && x.rechargeStatus == ToLowerCase(r.texts[10].value)
  {
  }

  lemma AmountIsUnder(t: PortalTable, r: nat, c: seq<nat>, k: nat, wanted: seq<string>, x: real)
    requires ColumnsOf(t.headers, wanted) == Ok(c) && r < |t.rows| && k < |wanted|
    requires Amount(CellsUnder(t.rows[r], c, wanted)[k], wanted[k]) == Ok(x)
    ensures HasAmount(t, r, wanted[k], x)
  {
    CellIsUnder(t, r, c, k, wanted);
  }

  lemma TextIsUnder(t: PortalTable, r: nat, c: seq<nat>, k: nat, wanted: seq<string>, text: string)
    requires ColumnsOf(t.headers, wanted) == Ok(c) && r < |t.rows| && k < |wanted|
    requires CellsUnder(t.rows[r], c, wanted)[k] == Ok(text)
    ensures HasText(t, r, wanted[k], text)
  {
    CellIsUnder(t, r, c, k, wanted);
  }

  lemma DateRead(text: string, at: int)
    requires RechargedAt(Ok(text)) == Ok(at)
    ensures PortalStamps.ParseRechargeDate(text) == Some(at)
  {
  }

  lemma DateIsUnder(t: PortalTable, r: nat, c: seq<nat>, k: nat, wanted: seq<string>, text: string, at: int)
    requires ColumnsOf(t.headers, wanted) == Ok(c) && r < |t.rows| && k < |wanted|
    requires CellsUnder(t.rows[r], c, wanted)[k] == Ok(text) && PortalStamps.ParseRechargeDate(text) == Some(at)
    ensures HasDate(t, r, wanted[k], at)
  {
    CellIsUnder(t, r, c, k, wanted);
  }

  lemma RowIsDescribed(t: PortalTable, r: nat, c: seq<nat>)
    requires ColumnsOf(t.headers, WANTED) == Ok(c) && r < |t.rows| && ParseRow(t.rows[r], c).Ok?
    ensures Describes(ParseRow(t.rows[r], c).value, t, r)
  {
    var readings := ReadingsOf(CellsUnder(t.rows[r], c, WANTED));
    var x := FromReadings(readings).value;
    FieldsOfReadings(readings);
    AmountIsUnder(t, r, c, 0, WANTED, x.sn);
    AmountIsUnder(t, r, c, 2, WANTED, x.meterRentAmount);
    AmountIsUnder(t, r, c, 3, WANTED, x.demandChargeAmount);
    AmountIsUnder(t, r, c, 4, WANTED, x.vatAmount);
    AmountIsUnder(t, r, c, 5, WANTED, x.concessionAmount);
    AmountIsUnder(t, r, c, 6, WANTED, x.usableAmount);
    AmountIsUnder(t, r, c, 7, WANTED, x.rechargeAmount);
    TextIsUnder(t, r, c, 1, WANTED, x.token);
    TextIsUnder(t, r, c, 8, WANTED, x.rechargeMethod);
    DateRead(readings.texts[9].value, x.rechargedDate);
    DateIsUnder(t, r, c, 9, WANTED, readings.texts[9].value, x.rechargedDate);
    TextIsUnder(t, r, c, 10, WANTED, readings.texts[10].value);
  }

  lemma {:induction false} RowsAreRead(rows: seq<seq<string>>, c: seq<nat>, r: nat)
    requires |c| == |WANTED| && ParseRows(rows, c).Ok?
    ensures |ParseRows(rows, c).value| == |rows|
    ensures r < |rows| ==> ParseRow(rows[r], c) == Ok(ParseRows(rows, c).value[r])
  {
    if rows != [] {
      RowsAreRead(rows[1..], c, if r > 0 then r - 1 else 0);
    }
  }

  /** A history that reads without error describes its table row for row. */
  lemma HistoryDescribesTable(t: PortalTable, r: nat)
    requires ParseRechargeHistory(Some(t)).Ok?
    ensures |ParseRechargeHistory(Some(t)).value| == |t.rows|
    ensures r < |t.rows| ==> Describes(ParseRechargeHistory(Some(t)).value[r], t, r)
  {
    var c := ColumnsOf(t.headers, WANTED).value;
    RowsAreRead(t.rows, c, r);
    if r < |t.rows| {
      RowIsDescribed(t, r, c);
    }
  }

  // ---------------------------------------------------------------- amounts read back

  function Nat(n: nat): (s: string)
    ensures s != [] && IsDigit(s[0])
  {
    if n < 10 then [Digit(n)] else Nat(n / 10) + [Digit(n % 10)]
  }

  /** The last `places` digits of a number. */
  function Padded(n: nat, places: nat): (s: string)
    ensures |s| == places
  {
    if places == 0 then [] else Padded(n / 10, places - 1) + [Digit(n % 10)]
  }

  /** A decimal as the portal writes it once commas are dropped: no point without places. */
  function DecimalText(whole: nat, fraction: nat, places: nat): string {
    Nat(whole) + (if places == 0 then "" else "." + Padded(fraction, places))
  }

  /** What such a text stands for. */
  function DecimalValue(whole: nat, fraction: nat, places: nat): real {
    (whole * Pow10(places) + fraction) as real / Pow10(places) as real
  }

  lemma {:induction false} NatReadsBack(n: nat, rest: string, most: nat)
    requires most >= |Nat(n)|
    ensures TakeDigits(Nat(n) + rest, most, 0, 0) == TakeDigits(rest, most - |Nat(n)|, n, |Nat(n)|)
  {
    if n < 10 {
      TakeOne(n, rest, most, 0, 0);
    } else {
      NatReadsBack(n / 10, [Digit(n % 10)] + rest, most);
      TakeOne(n % 10, rest, most - |Nat(n / 10)|, n / 10, |Nat(n / 10)|);
      assert Nat(n) + rest == Nat(n / 10) + ([Digit(n % 10)] + rest);
    }
  }

  lemma ShiftedValue(value: nat, n: nat, places: nat)
    requires places > 0
    ensures (value * Pow10(places - 1) + n / 10) * 10 + n % 10 == value * Pow10(places) + n
  {
    assert value * Pow10(places) == (value * Pow10(places - 1)) * 10;
  }

  lemma {:induction false} PaddedReadsBack(n: nat, places: nat, rest: string, most: nat, value: nat, count: nat)
    requires n < Pow10(places) && most >= places
    ensures TakeDigits(Padded(n, places) + rest, most, value, count)
         == TakeDigits(rest, most - places, value * Pow10(places) + n, count + places)
  {
    if places == 0 {
      assert Padded(n, places) + rest == rest;
    } else {
      PaddedReadsBack(n / 10, places - 1, [Digit(n % 10)] + rest, most, value, count);
      TakeOne(n % 10, rest, most - (places - 1), value * Pow10(places - 1) + n / 10, count + (places - 1));
      ShiftedValue(value, n, places);
      assert Padded(n, places) + rest == Padded(n / 10, places - 1) + ([Digit(n % 10)] + rest);
    }
  }

  lemma WholeReadsBack(whole: nat)
    ensures ReadDecimal(Nat(whole)) == Some(whole as real)
  {
    NatReadsBack(whole, [], |Nat(whole)|);
    assert Nat(whole) + [] == Nat(whole);
  }

  lemma FractionReadsBack(whole: nat, fraction: nat, places: nat)
    requires fraction < Pow10(places) && places > 0
    ensures ReadDecimal(Nat(whole) + ("." + Padded(fraction, places))) == Some(DecimalValue(whole, fraction, places))
  {
    var digits := Padded(fraction, places);
    var tail := "." + digits;
    NatReadsBack(whole, tail, |Nat(whole) + tail|);
    assert tail[1..] == digits + [];
    PaddedReadsBack(fraction, places, [], |tail|, whole, 0);
  }

  lemma DecimalReadsBack(whole: nat, fraction: nat, places: nat)
    requires fraction < Pow10(places)
    ensures ReadDecimal(DecimalText(whole, fraction, places)) == Some(DecimalValue(whole, fraction, places))
  {
    if places == 0 {
      WholeReadsBack(whole);
      assert DecimalText(whole, fraction, 0) == Nat(whole);
    } else {
      FractionReadsBack(whole, fraction, places);
    }
  }

  lemma DecimalTextStartsWithDigit(whole: nat, fraction: nat, places: nat)
    ensures DecimalText(whole, fraction, places) != [] && IsDigit(DecimalText(whole, fraction, places)[0])
  {
  }

  /** Any cell that comes down to a plain decimal of however many places, through commas, spaces and either script,
      reads as that decimal. */
  lemma AmountRoundTrip(whole: nat, fraction: nat, places: nat, negative: bool, raw: string)
    requires fraction < Pow10(places)
    requires Cleaned(raw) == (if negative then "-" else "") + DecimalText(whole, fraction, places)
    ensures var x := DecimalValue(whole, fraction, places);
            ParseAmount(raw) == Some(if negative then -x else x)
  {
    DecimalReadsBack(whole, fraction, places);
    DecimalTextStartsWithDigit(whole, fraction, places);
    var text, cleaned := DecimalText(whole, fraction, places), Cleaned(raw);
    if negative {
      assert cleaned[1..] == text;
      assert |cleaned| > 1;
    } else {
      assert cleaned == text;
    }
  }
}
