/**
 * The value-level parts of backend/config.py: the number of history buckets
 * an aggregation setting implies, and the parsing of the alert threshold,
 * which accepts plain numbers and decimal text with a K/M/G/T suffix.
 */
module Config {
  import opened Wrappers
  import opened Text
  import opened Numbers
  import opened PyValue

  /** The aggregation section of the configuration file. */
  datatype AggregationSettings = AggregationSettings(windowSeconds: int, historyHours: int) {
    /**
     * `history_buckets`: `int(history_hours * 3600 / window_seconds)`, a true
     * division truncated toward zero; a zero window raises ZeroDivisionError.
     */
    function HistoryBuckets(): (r: Result<int, Exception>)
      ensures r.Err? <==> windowSeconds == 0
      ensures r.Err? ==> r.error == ZeroDivisionError
    {
      if windowSeconds == 0 then Err(ZeroDivisionError)
      else Ok(Trunc(Quotient(historyHours * 3600, windowSeconds)))
    }
  }

  /** The true quotient `n / w` of two Python ints. */
  function Quotient(n: int, w: int): real
    requires w != 0
  {
    n as real / w as real
  }

  /** For non-negative `n` and positive `w`, the true quotient truncates to the integer quotient. */
  lemma QuotientFloor(n: int, w: int)
    requires n >= 0 && w > 0
    ensures Trunc(Quotient(n, w)) == n / w
  {
    var q, rest := n / w, n % w;
    assert n == q * w + rest && 0 <= rest < w;
    var x := Quotient(n, w);
    var f := rest as real / w as real;
    assert 0.0 <= f < 1.0;
    assert x == q as real + f by {
      assert (q as real + f) * w as real == n as real;
    }
    assert x >= 0.0;
  }

  /** For positive settings the bucket count is the integer quotient of the history length by the window. */
  lemma HistoryBucketsExact(settings: AggregationSettings)
    requires settings.historyHours >= 0 && settings.windowSeconds > 0
    ensures settings.HistoryBuckets() == Ok(settings.historyHours * 3600 / settings.windowSeconds)
  {
    QuotientFloor(settings.historyHours * 3600, settings.windowSeconds);
  }

  /** Every history bucket spans one window: the buckets cover the history and one more would exceed it. */
  lemma HistoryBucketsCover(settings: AggregationSettings)
    requires settings.historyHours >= 0 && settings.windowSeconds > 0
    ensures var b := settings.HistoryBuckets();
      && b.Ok? && b.value >= 0
      && b.value * settings.windowSeconds <= settings.historyHours * 3600
      && settings.historyHours * 3600 < (b.value + 1) * settings.windowSeconds
  {
    HistoryBucketsExact(settings);
    var n, w := settings.historyHours * 3600, settings.windowSeconds;
    assert n == (n / w) * w + n % w;
  }

  /** The factor a threshold suffix stands for, after upper-casing. */
  function Multiplier(c: char): (m: Option<int>)
    ensures m.Some? <==> c in {'K', 'M', 'G', 'T'}
  {
    if c == 'K' then Some(1_000)
    else if c == 'M' then Some(1_000_000)
    else if c == 'G' then Some(1_000_000_000)
    else if c == 'T' then Some(1_000_000_000_000)
    else None
  }

  /** `int(float(text))`, or ValueError when the text is not a number. */
  function TruncText(text: string): (r: Result<int, Exception>)
    ensures r.Err? ==> r.error == ValueError
  {
    match ParseFloat(text)
    case Some(x) => Ok(Trunc(x))
    case None => Err(ValueError)
  }

  /** A number times a suffix factor, as `float * int` computes it on exact reals. */
  function Scaled(x: real, factor: int): real {
    x * factor as real
  }

  /** `int(float(number) * factor)`, or ValueError when the number part does not parse. */
  function ScaleText(number: string, factor: int): (r: Result<int, Exception>)
    ensures r.Err? ==> r.error == ValueError
  {
    match ParseFloat(number)
    case Some(x) => Ok(Trunc(Scaled(x, factor)))
    case None => Err(ValueError)
  }

  /** The text branch of `parse_threshold`: 0 when blank, else the suffix-scaled or plain number. */
  function ParseThresholdText(s: string): (r: Result<int, Exception>)
    ensures r.Err? ==> r.error == ValueError
  {
    var text := Strip(s);
    if text == [] then Ok(0)
    else
      match Multiplier(UpperChar(LastChar(text)))
      case Some(factor) => ScaleText(Strip(DropLast(text)), factor)
      case None => TruncText(text)
  }

  /**
   * `parse_threshold(value)`: 0 for None; a bool, int or float truncated; text
   * through its own branch; ValueError for anything else.
   */
  function ParseThreshold(v: Value): (r: Result<int, Exception>)
    ensures r.Err? ==> r.error == ValueError
    ensures r.Err? ==> v.PyStr? || v.PyList? || v.PyDict?
  {
    match v
    case PyNone => Ok(0)
    case PyBool(b) => Ok(if b then 1 else 0)
    case PyInt(i) => Ok(i)
    case PyFloat(x) => Ok(Trunc(x))
    case PyStr(s) => ParseThresholdText(s)
    case _ => Err(ValueError)
  }

  /** None and blank text mean "no threshold". */
  lemma ThresholdBlank(s: string)
    requires Strip(s) == []
    ensures ParseThreshold(PyNone) == Ok(0)
    ensures ParseThreshold(PyStr(s)) == Ok(0)
  {
  }

  /** Numbers are truncated toward zero; lists and dicts are rejected. */
  lemma ThresholdNumbers(i: int, x: real, items: seq<Value>, fields: map<string, Value>)
    ensures ParseThreshold(PyInt(i)) == Ok(i)
    ensures ParseThreshold(PyFloat(x)) == Ok(Trunc(x))
    ensures ParseThreshold(PyBool(true)) == Ok(1) && ParseThreshold(PyBool(false)) == Ok(0)
    ensures ParseThreshold(PyList(items)) == Err(ValueError) && ParseThreshold(PyDict(fields)) == Err(ValueError)
  {
  }

  /** A text value goes through the text branch. */
  lemma ThresholdOfText(s: string)
    ensures ParseThreshold(PyStr(s)) == ParseThresholdText(s)
  {
  }

  /** Scaling text that parses, or ValueError when it does not. */
  lemma ScaleTextCases(number: string, factor: int)
    ensures match ParseFloat(number)
      case Some(x) => ScaleText(number, factor) == Ok(Trunc(Scaled(x, factor)))
      case None => ScaleText(number, factor) == Err(ValueError)
  {
  }

  /** Truncating text that parses, or ValueError when it does not. */
  lemma TruncTextCases(text: string)
    ensures match ParseFloat(text)
      case Some(x) => TruncText(text) == Ok(Trunc(x))
      case None => TruncText(text) == Err(ValueError)
  {
  }

  /** The stripped text with its last character dropped. */
  function DropLast(text: string): string
    requires text != []
  {
    text[..|text| - 1]
  }

  /** The last character of the stripped text. */
  function LastChar(text: string): char
    requires text != []
  {
    text[|text| - 1]
  }

  lemma SuffixBranch(s: string, text: string, factor: int)
    requires text == Strip(s) && text != [] && Multiplier(UpperChar(LastChar(text))) == Some(factor)
    ensures ParseThresholdText(s) == ScaleText(Strip(DropLast(text)), factor)
  {
  }

  lemma PlainBranch(s: string, text: string)
    requires text == Strip(s) && text != [] && Multiplier(UpperChar(LastChar(text))).None?
    ensures ParseThresholdText(s) == TruncText(text)
  {
  }

  /**
   * Text whose stripped form ends in a suffix letter, in either case, is the
   * stripped remainder scaled by the letter's factor, or ValueError when the
   * remainder is not a number.
   */
  lemma ThresholdSuffix(s: string, text: string, factor: int)
    requires text == Strip(s) && text != [] && Multiplier(UpperChar(LastChar(text))) == Some(factor)
    ensures match ParseFloat(Strip(DropLast(text)))
      case Some(x) => ParseThreshold(PyStr(s)) == Ok(Trunc(Scaled(x, factor)))
      case None => ParseThreshold(PyStr(s)) == Err(ValueError)
  {
    ThresholdOfText(s);
    SuffixBranch(s, text, factor);
    ScaleTextCases(Strip(DropLast(text)), factor);
  }

  /** Text without a suffix letter is its number truncated, or ValueError when it is not a number. */
  lemma ThresholdPlain(s: string, text: string)
    requires text == Strip(s) && text != [] && Multiplier(UpperChar(LastChar(text))).None?
    ensures match ParseFloat(text)
      case Some(x) => ParseThreshold(PyStr(s)) == Ok(Trunc(x))
      case None => ParseThreshold(PyStr(s)) == Err(ValueError)
  {
    ThresholdOfText(s);
    PlainBranch(s, text);
    TruncTextCases(text);
  }

  /** The threshold text for `n` units of a suffix, the way a configuration file writes it. */
  function ThresholdText(n: int, suffix: char): string {
    IntToString(n) + [suffix]
  }

  /** Scaling an integer by an integer factor and truncating gives their product. */
  lemma ScaledInteger(n: int, factor: int)
    ensures Trunc(Scaled(n as real, factor)) == n * factor
  {
    assert Scaled(n as real, factor) == (n * factor) as real;
  }

  /** A suffixed text is its own strip, and dropping the suffix gives back the rendered integer. */
  lemma ThresholdTextShape(n: int, suffix: char)
    requires suffix !in Whitespace
    ensures var text := ThresholdText(n, suffix);
      && text != []
      && Strip(text) == text
      && LastChar(text) == suffix
      && DropLast(text) == IntToString(n)
  {
    var text := ThresholdText(n, suffix);
    IntToStringNoSpace(n);
    assert text[0] == IntToString(n)[0];
    StripCharsKeeps(text, Whitespace);
  }

  /** Writing an integer with a suffix letter, in either case, and parsing it back gives the integer times the factor. */
  lemma ThresholdRoundTrip(n: int, suffix: char, factor: int)
    requires Multiplier(UpperChar(suffix)) == Some(factor)
    ensures ParseThreshold(PyStr(ThresholdText(n, suffix))) == Ok(n * factor)
  {
    var digits := IntToString(n);
    var text := ThresholdText(n, suffix);
    ThresholdTextShape(n, suffix);
    StripRender(n);
    ParseFloatRender(n);
    ThresholdSuffix(text, text, factor);
    ScaledInteger(n, factor);
  }

  /** The rendering of an integer ends in a digit, which is no suffix letter. */
  lemma RenderEndsInDigit(n: int)
    ensures Multiplier(UpperChar(LastChar(IntToString(n)))).None?
  {
    var digits := IntToString(n);
    var body := NatToString(if n < 0 then -n else n);
    assert LastChar(digits) == body[|body| - 1];
    assert IsDigit(body[|body| - 1]);
  }

  /** Writing an integer without a suffix and parsing it back gives the integer. */
  lemma ThresholdPlainRoundTrip(n: int)
    ensures ParseThreshold(PyStr(IntToString(n))) == Ok(n)
  {
    var digits := IntToString(n);
    StripRender(n);
    RenderEndsInDigit(n);
    ParseFloatRender(n);
    ThresholdPlain(digits, digits);
    TruncInt(n);
  }
}
