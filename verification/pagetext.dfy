/**
 * The library behaviour the adapters rely on, abstracted: reading the text
 * of the element at an index of a selection, ASCII lowercasing (for
 * `strings.ToLower`), decimal parsing with the error dropped (for
 * `strconv.Atoi`), and calling a listener once per extracted table row.
 */
module PageText {
  import opened Wrappers
  import opened ProxyList

  /** `Selection.Eq(index).Text()` over the texts of a selection: a negative
      index counts from the end; an index outside the selection selects
      nothing, whose text is empty. */
  function Eq(texts: seq<string>, index: int): (r: string)
    ensures 0 <= index < |texts| ==> r == texts[index]
    ensures -|texts| <= index < 0 ==> r == texts[|texts| + index]
    ensures index < -|texts| || |texts| <= index ==> r == ""
  {
    var k := if index < 0 then index + |texts| else index;
    if 0 <= k < |texts| then texts[k] else ""
  }

  /** `pages.Eq(pages.Length() - 2).Text()`: the second to last link; with a
      single link the index is -1, which selects that link. */
  function NextToLast(links: seq<string>): (r: string)
    ensures |links| >= 2 ==> r == links[|links| - 2]
    ensures |links| == 1 ==> r == links[0]
    ensures |links| == 0 ==> r == ""
  {
    Eq(links, |links| - 2)
  }

  /** `pages.Last().Text()`: the last link, or "" when there is none. */
  function LastLink(links: seq<string>): (r: string)
    ensures |links| > 0 ==> r == links[|links| - 1]
    ensures |links| == 0 ==> r == ""
  {
    Eq(links, -1)
  }

  /** The text of cell `k` of a table row; a missing cell reads as "". */
  function Cell(row: seq<string>, k: nat): string {
    Eq(row, k)
  }

  predicate IsUpper(c: char) {
    'A' <= c <= 'Z'
  }

  function LowerChar(c: char): char {
    if IsUpper(c) then (c as int + 32) as char else c
  }

  /** `strings.ToLower`, restricted to ASCII letters. */
  function ToLower(s: string): (r: string)
    ensures |r| == |s|
    ensures forall i | 0 <= i < |s| :: r[i] == LowerChar(s[i])
  {
    seq(|s|, i requires 0 <= i < |s| => LowerChar(s[i]))
  }

  /** No ASCII capital occurs in `s`. */
  predicate NoUpper(s: string) {
    forall i | 0 <= i < |s| :: !IsUpper(s[i])
  }

  /** Lowercasing leaves no ASCII capital, keeps every other character and
      changes nothing the second time. */
  lemma ToLowerProperties(s: string)
    ensures NoUpper(ToLower(s))
    ensures forall i | 0 <= i < |s| && !IsUpper(s[i]) :: ToLower(s)[i] == s[i]
    ensures ToLower(ToLower(s)) == ToLower(s)
    ensures ToLower(s) == "" <==> s == ""
  {
  }

  predicate IsDigit(c: char) {
    '0' <= c <= '9'
  }

  predicate AllDigits(s: string) {
    forall i | 0 <= i < |s| :: IsDigit(s[i])
  }

  /** The value of a string of decimal digits, most significant first. */
  function DigitsValue(s: string): (r: nat)
    requires AllDigits(s)
    decreases |s|
  {
    if |s| == 0 then 0
    else DigitsValue(s[..|s| - 1]) * 10 + (s[|s| - 1] as int - '0' as int)
  }

  /** A leading '-' makes the value negative. */
  predicate Negative(s: string) {
    |s| > 0 && s[0] == '-'
  }

  /** The text after an optional leading sign. */
  function Unsigned(s: string): string {
    if |s| > 0 && (s[0] == '+' || s[0] == '-') then s[1..] else s
  }

  /** The decimal syntax `strconv.Atoi` accepts: an optional sign, then one
      or more digits. */
  function ParseDecimal(s: string): (r: Option<int>)
    ensures r.None? <==> |Unsigned(s)| == 0 || exists i | 0 <= i < |Unsigned(s)| :: !IsDigit(Unsigned(s)[i])
    ensures r.Some? && Negative(s) ==> r.value <= 0
    ensures r.Some? && !Negative(s) ==> r.value >= 0
  {
    var t := Unsigned(s);
    if |t| > 0 && AllDigits(t) then
      Some(if Negative(s) then -(DigitsValue(t) as int) else DigitsValue(t) as int)
    else None
  }

  /** The decimal rendering of a natural number, most significant digit
      first, without leading zeros. */
  function Decimal(n: nat): (r: string)
    ensures |r| > 0 && AllDigits(r)
    decreases n
  {
    var d := ['0' + (n % 10) as char];
    if n < 10 then d else Decimal(n / 10) + d
  }

  /** Reading a rendering back gives the number. */
  lemma {:induction false} DigitsValueDecimal(n: nat)
    ensures DigitsValue(Decimal(n)) == n
    decreases n
  {
    var s := Decimal(n);
    if n >= 10 {
      DigitsValueDecimal(n / 10);
      assert s[..|s| - 1] == Decimal(n / 10);
    }
  }

  /** `ParseDecimal` inverts the rendering, with or without a sign. */
  lemma ParseDecimalRoundTrip(n: nat)
    ensures ParseDecimal(Decimal(n)) == Some(n)
    ensures ParseDecimal("+" + Decimal(n)) == Some(n)
    ensures ParseDecimal("-" + Decimal(n)) == Some(-(n as int))
  {
    DigitsValueDecimal(n);
    assert ("+" + Decimal(n))[1..] == Decimal(n);
    assert ("-" + Decimal(n))[1..] == Decimal(n);
  }

  const MinInt: int := -0x8000_0000_0000_0000
  const MaxInt: int := 0x7fff_ffff_ffff_ffff
  const MaxUint64: int := 0xffff_ffff_ffff_ffff

  /** The longest prefix of `s` made of decimal digits. */
  function LeadingDigits(s: string): (r: string)
    ensures |r| <= |s| && r == s[..|r|]
    ensures AllDigits(r)
    ensures |r| < |s| ==> !IsDigit(s[|r|])
    decreases |s|
  {
    if |s| == 0 || !IsDigit(s[0]) then ""
    else
      var rest := LeadingDigits(s[1..]);
      assert forall i | 1 <= i < |rest| + 1 :: ([s[0]] + rest)[i] == rest[i - 1];
      [s[0]] + rest
  }

  /** `strconv.ParseUint` reads the digits from the left and gives up with
      its largest value as soon as those read exceed 64 bits, before it looks
      at any later character. */
  ghost predicate Overflows(s: string) {
    DigitsValue(LeadingDigits(Unsigned(s))) > MaxUint64
  }

  /** `strconv.Atoi` on a 64-bit platform with its error ignored: the value
      on success, the nearest bound of `int` when out of range, and 0 on a
      syntax error, except that digits overflowing 64 bits yield the bound
      even when a syntax error follows them. */
  function Atoi(s: string): (r: int)
    ensures MinInt <= r <= MaxInt
    ensures Overflows(s) ==> r == (if Negative(s) then MinInt else MaxInt)
    ensures !Overflows(s) && ParseDecimal(s).None? ==> r == 0
    ensures ParseDecimal(s).Some? && ParseDecimal(s).value > MaxInt ==> r == MaxInt
    ensures ParseDecimal(s).Some? && ParseDecimal(s).value < MinInt ==> r == MinInt
    ensures ParseDecimal(s).Some? && MinInt <= ParseDecimal(s).value <= MaxInt ==>
              r == ParseDecimal(s).value
  {
    var t := Unsigned(s);
    var run := LeadingDigits(t);
    if |t| == 0 then 0
    else if DigitsValue(run) > MaxUint64 then
      assert AllDigits(t) ==> |run| == |t| && run == t;
      if Negative(s) then MinInt else MaxInt
    else if |run| < |t| then
      assert !AllDigits(t);
      0
    else
      assert run == t;
      var v: int := DigitsValue(t);
      if Negative(s) then (if v > -MinInt then MinInt else -v)
      else (if v > MaxInt then MaxInt else v)
  }

  /** `Atoi` reads back every rendering within the range of `int`, which
      is how a page-count link such as "10" is read. */
  lemma AtoiRoundTrip(n: nat)
    requires n <= MaxInt
    ensures Atoi(Decimal(n)) == n
    ensures Atoi("-" + Decimal(n)) == -(n as int)
  {
    ParseDecimalRoundTrip(n);
  }

  /** A number too large for 64 bits followed by any non-digit reads as the
      largest `int`, although the text is not decimal syntax. */
  lemma AtoiOverflowBeforeSyntaxError(n: nat, c: char)
    requires n > MaxUint64 && !IsDigit(c)
    ensures ParseDecimal(Decimal(n) + [c]).None?
    ensures Atoi(Decimal(n) + [c]) == MaxInt
  {
    var d := Decimal(n);
    var s := d + [c];
    DigitsValueDecimal(n);
    assert IsDigit(s[0]) && Unsigned(s) == s;
    assert !IsDigit(s[|d|]);
    assert LeadingDigits(s) == d;
  }

  /** The records extracted from the rows of a table, in row order: row `i`
      contributes `extract(i, rows[i])` when that is a record. */
  function Collect(rows: seq<seq<string>>, extract: (nat, seq<string>) -> Option<Proxy>): (r: seq<Proxy>)
    ensures |r| <= |rows|
    ensures forall x | x in r :: exists i | 0 <= i < |rows| :: extract(i, rows[i]) == Some(x)
    ensures forall i | 0 <= i < |rows| && extract(i, rows[i]).Some? :: extract(i, rows[i]).value in r
    decreases |rows|
  {
    if |rows| == 0 then []
    else
      var n := |rows| - 1;
      var init := Collect(rows[..n], extract);
      assert forall i | 0 <= i < n :: rows[..n][i] == rows[i];
      match extract(n, rows[n])
      case None => init
      case Some(p) => init + [p]
  }
  /** `idx` lists, ascending, exactly the rows that yield a record, and
      `r[j]` is the record of row `idx[j]`. */
  ghost predicate InRowOrder(rows: seq<seq<string>>, extract: (nat, seq<string>) -> Option<Proxy>,
                             r: seq<Proxy>, idx: seq<nat>) {
    && |idx| == |r|
    && (forall j | 0 <= j < |idx| :: idx[j] < |rows| && extract(idx[j], rows[idx[j]]) == Some(r[j]))
    && (forall j, k | 0 <= j < k < |idx| :: idx[j] < idx[k])
    && (forall i | 0 <= i < |rows| && extract(i, rows[i]).Some? :: i in idx)
  }

  /** Extending the rows by one: an order witness for all rows but the last
      extends to one for all rows, with the last row's record appended when
      it yields one. */
  lemma InRowOrderSnoc(rows: seq<seq<string>>, extract: (nat, seq<string>) -> Option<Proxy>,
                       r0: seq<Proxy>, idx0: seq<nat>, r: seq<Proxy>, idx: seq<nat>)
    requires |rows| > 0
    requires InRowOrder(rows[..|rows| - 1], extract, r0, idx0)
    requires extract(|rows| - 1, rows[|rows| - 1]).Some? ==>
               r == r0 + [extract(|rows| - 1, rows[|rows| - 1]).value] && idx == idx0 + [|rows| - 1]
    requires extract(|rows| - 1, rows[|rows| - 1]).None? ==> r == r0 && idx == idx0
    ensures InRowOrder(rows, extract, r, idx)
  {
    var n := |rows| - 1;
    var init := rows[..n];
    forall j | 0 <= j < |idx0|
      ensures idx0[j] < n && extract(idx0[j], rows[idx0[j]]) == Some(r0[j])
    {
      assert init[idx0[j]] == rows[idx0[j]];
    }
    forall i | 0 <= i < n && extract(i, rows[i]).Some?
      ensures i in idx0
    {
      assert init[i] == rows[i];
    }
  }

  /** The records reach the listener in row order, one per yielding row. */
  lemma {:induction false} CollectInRowOrder(rows: seq<seq<string>>, extract: (nat, seq<string>) -> Option<Proxy>)
    ensures exists idx :: InRowOrder(rows, extract, Collect(rows, extract), idx)
    decreases |rows|
  {
    if |rows| == 0 {
      var none: seq<nat> := [];
      assert InRowOrder(rows, extract, Collect(rows, extract), none);
    } else {
      var n := |rows| - 1;
      CollectInRowOrder(rows[..n], extract);
      var idx0: seq<nat> :| InRowOrder(rows[..n], extract, Collect(rows[..n], extract), idx0);
      var idx := if extract(n, rows[n]).Some? then idx0 + [n] else idx0;
      InRowOrderSnoc(rows, extract, Collect(rows[..n], extract), idx0, Collect(rows, extract), idx);
    }
  }
}
