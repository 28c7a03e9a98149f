/** The window width as the limiter and the collector read it from one setting: the limiter trims the text
    before parsing it, the collector does not. */
module RateConfig {
  import opened Wrappers
  import opened Text
  import opened RateLimit

  const DEFAULT_WIDTH: int := 60

  function Clamp(n: int): (r: int)
    ensures 10 <= r <= 3600
    ensures 10 <= n <= 3600 ==> r == n
  {
    if n < 10 then 10 else if n > 3600 then 3600 else n
  }

  function Trim(s: string): string
  {
    TrimEnd(TrimStart(s))
  }

  function WidthOf(parsed: Option<int>): (r: int)
    ensures 10 <= r <= 3600
  {
    Clamp(if parsed.Some? then parsed.value else DEFAULT_WIDTH)
  }

  function LimiterWidth(setting: Option<string>): (r: int)
    ensures 10 <= r <= 3600
  {
    WidthOf(if setting.None? then None else ParseI64(Trim(setting.value)))
  }

  function SweepWidth(setting: Option<string>): (r: int)
    ensures 10 <= r <= 3600
  {
    WidthOf(if setting.None? then None else ParseI64(setting.value))
  }

  lemma {:induction false} ParsedDigits(s: string)
    requires ParseDigits(s).Some?
    ensures s != "" && forall c :: c in s ==> IsDigit(c)
    decreases |s|
  {
    if |s| > 1 {
      ParsedDigits(s[..|s| - 1]);
      assert s == s[..|s| - 1] + [s[|s| - 1]];
    }
  }

  /** What parses as it stands has nothing to trim. */
  lemma ParsedUntrimmed(s: string)
    requires ParseI64(s).Some?
    ensures Trim(s) == s
  {
    if s != "" && s[0] in "+-" {
      ParsedDigits(s[1..]);
      assert s[|s| - 1] == s[1..][|s| - 2] && s[1..][|s| - 2] in s[1..];
    } else {
      ParsedDigits(s);
      assert s[0] in s && s[|s| - 1] in s;
    }
  }

  /** The rate limit holds in every history under a setting, except when blanks around the number
      keep the collector from reading a width above the default. */
  lemma LimitHoldsForSetting(setting: Option<string>)
    ensures LimitHolds(LimiterWidth(setting), SweepWidth(setting)) <==>
            (setting.Some? && ParseI64(setting.value).None? ==> LimiterWidth(setting) <= DEFAULT_WIDTH)
  {
    LimitHoldsIff(LimiterWidth(setting), SweepWidth(setting));
    if setting.Some? && ParseI64(setting.value).Some? {
      ParsedUntrimmed(setting.value);
    }
  }

  /** A leading blank is enough: the limiter counts hours, the collector minutes. */
  lemma BlankBreaksLimit()
    ensures !LimitHolds(LimiterWidth(Some(" 3600")), SweepWidth(Some(" 3600")))
  {
    var text := " 3600";
    var number := "3600";
    assert text[1..] == number;
    assert TrimStart(text) == number;
    assert Trim(text) == number;
    assert number[..3] == "360" && number[..3][..2] == "36" && number[..3][..2][..1] == "3";
    assert ParseDigits("3") == Some(3) && ParseDigits("36") == Some(36) && ParseDigits("360") == Some(360);
    assert ParseDigits(number) == Some(3600);
    assert text[..4] == " 360" && text[..4][..3] == " 36" && text[..4][..3][..2] == " 3" && " 3"[..1] == " ";
    assert ParseDigits(" ").None? && ParseDigits(" 3").None? && ParseDigits(" 36").None? && ParseDigits(" 360").None?;
    assert ParseI64(text).None?;
    LimitHoldsForSetting(Some(text));
  }
}
