/**
 * The CSV report the main program writes: a header line, then one line per
 * result, joined with `\n` (no trailing newline). Each figure is written as
 * JavaScript writes the number `+(x).toFixed(1)`: a whole number without a
 * decimal point, any other with its one decimal.
 */
module Report {
  import opened JsText
  import opened Optional
  import opened Trial

  const Header: string := "browser,tabs,baseline_mb,total_mb,per_tab_mb"

  /** The non-negative number `m / 10` as number-to-string conversion writes
      it: the whole part, and `.d` only when the tenths digit `d` is not 0. */
  function UnsignedTenths(m: nat): (s: string)
    ensures |s| > 0 && IsDigit(s[0]) && s[|s| - 1] != '.'
    ensures forall k :: 0 <= k < |s| ==> s[k] == '.' || IsDigit(s[k])
    ensures ('.' in s) <==> m % 10 != 0
    ensures m % 10 != 0 ==> |s| >= 3 && s[|s| - 2] == '.' && '.' !in s[..|s| - 2]
    ensures s[0] == '0' ==> m < 10
    ensures s[0] == '0' ==> |s| == 1 || s[1] == '.'
  {
    Decimal(m / 10) + if m % 10 == 0 then "" else "." + [DigitChar(m % 10)]
  }

  /** The number `t / 10` as number-to-string conversion writes it, a `-`
      first when it is negative. `-0` (a small negative figure rounded to
      zero) is the integer 0 here and is written `0`, as JavaScript does. */
  function FormatTenths(t: int): (s: string)
    ensures |s| > 0 && s[|s| - 1] != '.'
    ensures forall k :: 0 <= k < |s| ==> s[k] == '-' || s[k] == '.' || IsDigit(s[k])
    ensures (s[0] == '-') <==> t < 0
    ensures ('.' in s) <==> t % 10 != 0
    ensures t < 0 ==> |s| >= 2 && IsDigit(s[1]) && (s[1] == '0' ==> |s| == 2 || s[2] == '.')
    ensures t >= 0 ==> IsDigit(s[0]) && (s[0] == '0' ==> |s| == 1 || s[1] == '.')
  {
    var m := if t < 0 then -t else t;
    (if t < 0 then "-" else "") + UnsignedTenths(m)
  }

  /** Reads back `UnsignedTenths`: a digit string, optionally followed by `.`
      and one digit; the value in tenths. */
  function ParseUnsignedTenths(s: string): Option<nat> {
    var parts := Split(s, '.');
    if |parts| == 1 && IsDigits(parts[0]) then
      Some(10 * DecimalValue(parts[0]))
    else if |parts| == 2 && IsDigits(parts[0]) && |parts[1]| == 1 && IsDigit(parts[1][0]) then
      Some(10 * DecimalValue(parts[0]) + DigitValue(parts[1][0]))
    else None
  }

  /** Reads a figure back as a consumer of the CSV would: an optional `-`
      before what `ParseUnsignedTenths` reads. */
  function ParseTenths(s: string): Option<int> {
    var negative := |s| > 0 && s[0] == '-';
    match ParseUnsignedTenths(if negative then s[1..] else s)
    case Some(m) => Some(if negative then -(m as int) else m as int)
    case None => None
  }

  /** A sign followed by an unsigned figure reads as the signed figure. */
  lemma ParseSigned(negative: bool, u: string, m: nat)
    requires |u| > 0 && u[0] != '-' && ParseUnsignedTenths(u) == Some(m)
    ensures ParseTenths((if negative then "-" else "") + u) == Some(if negative then -(m as int) else m as int)
  {
    var s := (if negative then "-" else "") + u;
    if negative {
      assert s[0] == '-' && s[1..] == u;
    } else {
      assert s == u;
    }
  }

  lemma UnsignedTenthsRoundTrip(m: nat)
    ensures ParseUnsignedTenths(UnsignedTenths(m)) == Some(m)
  {
    var whole := Decimal(m / 10);
    DigitsExclude(whole, '.');
    DecimalRoundTrip(m / 10);
    if m % 10 == 0 {
      assert UnsignedTenths(m) == whole;
      SplitWithoutSeparator(whole, '.');
    } else {
      var d := [DigitChar(m % 10)];
      assert UnsignedTenths(m) == whole + ['.'] + d;
      SplitAfterPiece(whole, '.', d);
      SplitWithoutSeparator(d, '.');
      assert Split(UnsignedTenths(m), '.') == [whole, d];
      assert DigitValue(d[0]) == m % 10;
    }
  }

  /** Every figure reads back as the figure it was written from. */
  lemma TenthsRoundTrip(t: int)
    ensures ParseTenths(FormatTenths(t)) == Some(t)
  {
    var m := if t < 0 then -t else t;
    UnsignedTenthsRoundTrip(m);
    ParseSigned(t < 0, UnsignedTenths(m), m);
  }

  /** One CSV line: `${browser},${tabs},${baseline_mb},${total_mb},${per_tab_mb}`. */
  function Row(r: TrialResult): string {
    Join(Fields(r), ',')
  }

  function Fields(r: TrialResult): seq<string> {
    [BrowserName(r.browser), Decimal(r.tabs), FormatTenths(r.baselineMb), FormatTenths(r.totalMb), FormatTenths(r.perTabMb)]
  }

  function Rows(results: seq<TrialResult>): seq<string>
  {
    seq(|results|, k requires 0 <= k < |results| => Row(results[k]))
  }

  /** The file's contents: the header and the rows, joined with `\n`. */
  function CsvText(results: seq<TrialResult>): string {
    Join([Header] + Rows(results), '\n')
  }

  lemma FieldsExclude(r: TrialResult, c: char)
    requires c == ',' || c == '\n'
    ensures forall k :: 0 <= k < |Fields(r)| ==> c !in Fields(r)[k]
  {
    var f := Fields(r);
    assert c !in BrowserName(r.browser) by {
      match r.browser
      case Chromium => assert BrowserName(r.browser) == "chromium";
      case Firefox => assert BrowserName(r.browser) == "firefox";
    }
    DigitsExclude(Decimal(r.tabs), c);
    forall k | 2 <= k < 5 ensures c !in f[k] {
      assert forall j :: 0 <= j < |f[k]| ==> f[k][j] != c;
    }
  }

  /** Splitting a row on `,` gives back its five fields. */
  lemma RowFields(r: TrialResult)
    ensures Split(Row(r), ',') == Fields(r)
  {
    FieldsExclude(r, ',');
    SplitJoin(Fields(r), ',');
  }

  lemma RowIsOneLine(r: TrialResult)
    ensures '\n' !in Row(r)
  {
    FieldsExclude(r, '\n');
    JoinExcludes(Fields(r), ',', '\n');
  }

  /** No row of the file contains a newline. */
  lemma RowsAreLines(results: seq<TrialResult>)
    ensures forall k :: 0 <= k < |Rows(results)| ==> '\n' !in Rows(results)[k]
  {
    forall k | 0 <= k < |Rows(results)| ensures '\n' !in Rows(results)[k] {
      RowIsOneLine(results[k]);
    }
  }

  /** Splitting the file on `\n` gives back the header and one row per result, in order. */
  lemma CsvLines(results: seq<TrialResult>)
    ensures Split(CsvText(results), '\n') == [Header] + Rows(results)
  {
    var rows := Rows(results);
    var lines := [Header] + rows;
    RowsAreLines(results);
    assert '\n' !in Header;
    assert forall k :: 0 <= k < |lines| ==> '\n' !in lines[k] by {
      forall k | 0 <= k < |lines| ensures '\n' !in lines[k] {
        if k > 0 { assert lines[k] == rows[k - 1]; }
      }
    }
    SplitJoin(lines, '\n');
  }

  /** A trial of 1 tab whose samples are 100000 KB and 150000 KB yields
      97.7 MB, 146.5 MB and 48.8 MB per tab. */
  lemma ExampleResult()
    ensures MakeResult(Chromium, 1, 100000, 150000) == TrialResult(Chromium, 1, 977, 1465, 488)
  {
    assert RoundTenths(100000, 1024) == 977;
    assert RoundTenths(150000, 1024) == 1465;
    assert RoundTenths(50000, 1024) == 488;
  }

  /** A figure with tenths keeps its one decimal; a whole one is written
      without a decimal point. */
  lemma ExampleFigures()
    ensures FormatTenths(977) == "97.7"
    ensures FormatTenths(1000) == "100"
    ensures FormatTenths(-23) == "-2.3"
  {
    assert Decimal(9) == "9" && Decimal(97) == "97";
    assert Decimal(10) == "10" && Decimal(100) == "100";
    assert Decimal(2) == "2";
  }
}
