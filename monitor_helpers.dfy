/** The decision helpers of the monitor window: the colour band of a
    progress bar, the unit a transfer rate is shown in, how a stored setting
    is read as a flag, and how a value is kept inside a bar's range
    (main.py lines 712-771). */
module MonitorHelpers {
  import opened AsciiText

  const Red: string := "#f43f5e"
  const Amber: string := "#f59e0b"
  const Green: string := "#22c55e"

  /** The chunk colour of a bar showing `value`: red from 90 on, amber from
      75 up to 90, green below. */
  function ProgressColor(value: real): (c: string)
    ensures c == Red <==> value >= 90.0
    ensures c == Amber <==> 75.0 <= value < 90.0
    ensures c == Green <==> value < 75.0
  {
    if value >= 90.0 then Red
    else if value >= 75.0 then Amber
    else Green
  }

  /** 0 for green, 1 for amber, 2 for red. */
  function Severity(c: string): nat {
    if c == Red then 2 else if c == Amber then 1 else 0
  }

  /** A larger value never gets a milder colour. */
  lemma ColorMonotone(a: real, b: real)
    requires a <= b
    ensures Severity(ProgressColor(a)) <= Severity(ProgressColor(b))
  {
  }

  const KB: real := 1024.0
  const MB: real := KB * 1024.0
  const GB: real := MB * 1024.0

  datatype RateUnit = BytesPerSec | KiloBytesPerSec | MegaBytesPerSec | GigaBytesPerSec {
    function Suffix(): string {
      match this
      case BytesPerSec => "B/s"
      case KiloBytesPerSec => "KB/s"
      case MegaBytesPerSec => "MB/s"
      case GigaBytesPerSec => "GB/s"
    }

    function Divisor(): real {
      match this
      case BytesPerSec => 1.0
      case KiloBytesPerSec => KB
      case MegaBytesPerSec => MB
      case GigaBytesPerSec => GB
    }
  }

  /** A rate as shown: the number before rounding and its unit. */
  datatype ShownRate = ShownRate(amount: real, unit: RateUnit)

  /** The unit and scaled amount `_format_rate` shows for a rate: the amount
      times the unit's size is the rate, and the largest binary unit is chosen
      that keeps the amount at least 1, with gigabytes as the ceiling. */
  function FormatRate(bytesPerSec: real): (s: ShownRate)
    ensures s.amount * s.unit.Divisor() == bytesPerSec
    ensures s.unit != GigaBytesPerSec ==> s.amount < 1024.0
    ensures s.unit != BytesPerSec ==> s.amount >= 1.0
  {
    if bytesPerSec < KB then ShownRate(bytesPerSec, BytesPerSec)
    else if bytesPerSec < MB then ShownRate(bytesPerSec / KB, KiloBytesPerSec)
    else if bytesPerSec < GB then ShownRate(bytesPerSec / MB, MegaBytesPerSec)
    else ShownRate(bytesPerSec / GB, GigaBytesPerSec)
  }

  /** The unit is the one whose range holds the rate. */
  lemma RateUnitBands(bytesPerSec: real)
    ensures FormatRate(bytesPerSec).unit == BytesPerSec <==> bytesPerSec < 1024.0
    ensures FormatRate(bytesPerSec).unit == KiloBytesPerSec <==> 1024.0 <= bytesPerSec < 1048576.0
    ensures FormatRate(bytesPerSec).unit == MegaBytesPerSec <==> 1048576.0 <= bytesPerSec < 1073741824.0
    ensures FormatRate(bytesPerSec).unit == GigaBytesPerSec <==> bytesPerSec >= 1073741824.0
  {
  }

  /** A value read back from the settings store. */
  datatype SettingValue =
    | Missing              // `None`
    | Flag(b: bool)        // a Python `bool`
    | Other(text: string)  // anything else, as `str(value)` renders it

  const TrueWords: set<string> := {"1", "true", "yes", "on"}

  /** `_as_bool`: the default for a missing value, a flag as it is, and
      otherwise whether the stripped, lower-cased text is a word for true. */
  function AsBool(value: SettingValue, default: bool): (b: bool)
    ensures value.Missing? ==> b == default
    ensures value.Flag? ==> b == value.b
    ensures value.Other? ==> (b <==> Lower(Strip(value.text)) in TrueWords)
  {
    match value
    case Missing => default
    case Flag(b) => b
    case Other(text) => Lower(Strip(text)) in TrueWords
  }

  /** The default matters only when the value is missing. */
  lemma DefaultOnlyForMissing(value: SettingValue)
    requires AsBool(value, true) != AsBool(value, false)
    ensures value.Missing?
  {
  }

  /** Whitespace around the stored text does not change the flag. */
  lemma AsBoolIgnoresPadding(p: string, text: string, q: string, default: bool)
    requires AllSpace(p) && AllSpace(q)
    ensures AsBool(Other(p + text + q), default) == AsBool(Other(text), default)
  {
    StripIgnoresPadding(p, text, q);
  }

  /** Letter case of the stored text does not change the flag. */
  lemma AsBoolIgnoresCase(text: string, default: bool)
    ensures AsBool(Other(Lower(text)), default) == AsBool(Other(text), default)
  {
    StripLowerCommute(text);
    LowerIdempotent(Strip(text));
  }

  lemma LowerYes()
    ensures Lower("Yes") == "yes"
  {
  }

  lemma StripPaddedYes()
    ensures Strip(" Yes ") == "Yes"
  {
    var s := " Yes ";
    assert IsSpace(s[0]) && s[1..] == "Yes ";
    assert !IsSpace("Yes "[0]);
    assert TrimStart(s) == "Yes ";
    var u := "Yes ";
    assert IsSpace(u[3]) && u[..3] == "Yes";
    assert !IsSpace("Yes"[2]);
    assert TrimEnd(u) == "Yes";
  }

  /** " Yes " reads as true, whatever the default. */
  lemma PaddedYesIsTrue(default: bool)
    ensures AsBool(Other(" Yes "), default)
  {
    StripPaddedYes();
    LowerYes();
  }

  lemma StripOff()
    ensures Strip("off") == "off"
  {
    var s := "off";
    assert !IsSpace(s[0]) && !IsSpace(s[2]);
    assert TrimStart(s) == s;
  }

  lemma LowerOff()
    ensures Lower("off") == "off"
  {
  }

  lemma OffIsNotATrueWord()
    ensures "off" !in TrueWords
  {
  }

  /** "off" reads as false, whatever the default. */
  lemma OffIsFalse(default: bool)
    ensures !AsBool(Other("off"), default)
  {
    StripOff();
    LowerOff();
    OffIsNotATrueWord();
  }

  /** `max(bar.minimum(), min(bar.maximum(), value))` for an already rounded
      value: inside the bar's range, and the value itself when it fits. */
  function ClampProgress(minimum: int, maximum: int, value: int): (v: int)
    ensures minimum <= maximum ==> minimum <= v <= maximum
    ensures minimum <= value <= maximum ==> v == value
    ensures value < minimum ==> v == minimum
    ensures minimum <= maximum && value > maximum ==> v == maximum
    ensures maximum < minimum ==> v == minimum
  {
    if maximum < value then (if minimum > maximum then minimum else maximum)
    else if minimum > value then minimum
    else value
  }

  lemma ClampIdempotent(minimum: int, maximum: int, value: int)
    requires minimum <= maximum
    ensures ClampProgress(minimum, maximum, ClampProgress(minimum, maximum, value)) == ClampProgress(minimum, maximum, value)
  {
  }
}
