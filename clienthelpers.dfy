/**
 * The helpers of the single-page client: `capitalize` for display names, the session
 * countdown (`getNowTs`, `getDelay`, `secondsToHuman`) and the check of an e-mailed token
 * (`isValidToken`). The client's copy of `securePassword` is the generator of `Credentials`.
 * The clock is a parameter (milliseconds since the epoch); `TOKENS_LENGTH` is a parameter.
 */
module ClientHelpers {
  import opened Wrappers
  import opened JsText
  import opened Store

  // ---------------------------------------------------------------------------
  // capitalize

  lemma WordCharIsNoSpace(c: char)
    requires IsWordChar(c)
    ensures !IsSpace(c)
  {
  }

  lemma SpaceIsNoWordChar(c: char)
    requires IsSpace(c)
    ensures !IsWordChar(c)
  {
  }

  /**
   * `sentence.replace(/(^\w{1})|(\s+\w{1})/g, (letter) => letter.toUpperCase())`, scanning from
   * the left: `atStart` says whether `^` still matches. At each position the first alternative is
   * tried, then the greedy run of whitespace followed by a word character; without a match one
   * character is copied and the scan moves on. Upper-casing a match leaves its whitespace as it is.
   */
  function CapitalizeFrom(s: string, atStart: bool): (r: string)
    ensures |r| == |s|
    decreases |s|
  {
    if s == [] then []
    else if atStart && IsWordChar(s[0]) then [ToUpperWordOrSpace(s[0])] + CapitalizeFrom(s[1..], false)
    else
      var n := SpaceRun(s);
      if 0 < n < |s| && IsWordChar(s[n]) then s[..n] + [ToUpperWordOrSpace(s[n])] + CapitalizeFrom(s[n + 1..], false)
      else [s[0]] + CapitalizeFrom(s[1..], false)
  }

  function Capitalize(sentence: string): string {
    CapitalizeFrom(sentence, true)
  }

  /** Position `i` is upper-cased: a word character at the start (when `^` applies) or right after whitespace. */
  predicate UpAt(s: string, i: int, first: bool)
    requires 0 <= i < |s|
  {
    IsWordChar(s[i]) && (if i == 0 then first else IsSpace(s[i - 1]))
  }

  /** The character the replacement leaves at position `i`. */
  function CapitalizedAt(s: string, i: int, first: bool): char
    requires 0 <= i < |s|
  {
    if UpAt(s, i, first) then ToUpperWordOrSpace(s[i]) else s[i]
  }

  /** Every later position of `s[m..]` is judged as in `s`, whatever the start flag of the suffix. */
  lemma SuffixAt(s: string, m: int, i: int, first: bool, first': bool)
    requires 0 < m <= i < |s|
    requires i == m ==> (UpAt(s, i, first) <==> UpAt(s[m..], 0, first'))
    ensures CapitalizedAt(s[m..], i - m, first') == CapitalizedAt(s, i, first)
  {
    assert s[m..][i - m] == s[i];
    if i > m {
      assert s[m..][i - m - 1] == s[i - 1];
    }
  }

  /** The length of the greedy `\s+` run at the front of `s` (0 when there is none). */
  function SpaceRun(s: string): (n: nat)
    ensures n <= |s|
    ensures n < |s| ==> !IsSpace(s[n])
  {
    if s != [] && IsSpace(s[0]) then 1 + SpaceRun(s[1..]) else 0
  }

  /** Every character of the run is whitespace. */
  lemma {:induction false} SpaceRunIsSpace(s: string, k: int)
    requires 0 <= k < SpaceRun(s)
    ensures IsSpace(s[k])
  {
    if k > 0 {
      SpaceRunIsSpace(s[1..], k - 1);
    }
  }

  /** The scan upper-cases exactly the positions `UpAt` names and copies every other character. */
  lemma {:induction false} CapitalizeFromMeans(s: string, atStart: bool)
    ensures forall i :: 0 <= i < |s| ==> CapitalizeFrom(s, atStart)[i] == CapitalizedAt(s, i, atStart)
    decreases |s|
  {
    if s == [] {
    } else if atStart && IsWordChar(s[0]) {
      CapitalizeFirst(s);
    } else {
      var n := SpaceRun(s);
      if 0 < n < |s| && IsWordChar(s[n]) {
        CapitalizeRun(s, atStart, n);
      } else {
        CapitalizeSkip(s, atStart, n);
      }
    }
  }

  lemma {:induction false} CapitalizeFirst(s: string)
    requires s != [] && IsWordChar(s[0])
    ensures forall i :: 0 <= i < |s| ==> CapitalizeFrom(s, true)[i] == CapitalizedAt(s, i, true)
    decreases |s|, 0
  {
    var r := CapitalizeFrom(s, true);
    var rest := CapitalizeFrom(s[1..], false);
    CapitalizeFromMeans(s[1..], false);
    assert r == [ToUpperWordOrSpace(s[0])] + rest;
    WordCharIsNoSpace(s[0]);
    forall i | 1 <= i < |s| ensures r[i] == CapitalizedAt(s, i, true) {
      assert r[i] == rest[i - 1];
      SuffixAt(s, 1, i, true, false);
    }
  }

  lemma {:induction false} CapitalizeRun(s: string, atStart: bool, n: int)
    requires s != [] && !(atStart && IsWordChar(s[0]))
    requires n == SpaceRun(s) && 0 < n < |s| && IsWordChar(s[n])
    ensures forall i :: 0 <= i < |s| ==> CapitalizeFrom(s, atStart)[i] == CapitalizedAt(s, i, atStart)
    decreases |s|, 0
  {
    var r := CapitalizeFrom(s, atStart);
    var rest := CapitalizeFrom(s[n + 1..], false);
    CapitalizeFromMeans(s[n + 1..], false);
    assert r == s[..n] + [ToUpperWordOrSpace(s[n])] + rest;
    WordCharIsNoSpace(s[n]);
    forall i | 0 <= i < |s| ensures r[i] == CapitalizedAt(s, i, atStart) {
      if i < n {
        assert r[i] == s[i];
        SpaceRunIsSpace(s, i);
        SpaceIsNoWordChar(s[i]);
      } else if i == n {
        assert r[i] == ToUpperWordOrSpace(s[n]);
        SpaceRunIsSpace(s, n - 1);
      } else {
        assert r[i] == rest[i - n - 1];
        SuffixAt(s, n + 1, i, atStart, false);
      }
    }
  }

  lemma {:induction false} CapitalizeSkip(s: string, atStart: bool, n: int)
    requires s != [] && !(atStart && IsWordChar(s[0]))
    requires n == SpaceRun(s) && !(0 < n < |s| && IsWordChar(s[n]))
    ensures forall i :: 0 <= i < |s| ==> CapitalizeFrom(s, atStart)[i] == CapitalizedAt(s, i, atStart)
    decreases |s|, 0
  {
    var r := CapitalizeFrom(s, atStart);
    var rest := CapitalizeFrom(s[1..], false);
    CapitalizeFromMeans(s[1..], false);
    assert r == [s[0]] + rest;
    forall i | 1 <= i < |s| ensures r[i] == CapitalizedAt(s, i, atStart) {
      assert r[i] == rest[i - 1];
      if i == 1 {
        NoMatchAfterSpace(s, n);
      }
      SuffixAt(s, 1, i, atStart, false);
    }
  }

  /** Without a match at the front, a word character right after a leading space cannot exist. */
  lemma NoMatchAfterSpace(s: string, n: int)
    requires |s| >= 2 && n == SpaceRun(s) && !(0 < n < |s| && IsWordChar(s[n]))
    ensures IsSpace(s[0]) ==> !IsWordChar(s[1])
  {
    if IsSpace(s[0]) && n >= 2 {
      SpaceRunIsSpace(s, 1);
      SpaceIsNoWordChar(s[1]);
    }
  }

  /**
   * `capitalize(sentence)` keeps the length, upper-cases a word character at position 0 or right
   * after whitespace, and leaves every other character as it is.
   */
  lemma CapitalizeMeans(s: string)
    ensures |Capitalize(s)| == |s|
    ensures forall i {:trigger Capitalize(s)[i]} :: 0 <= i < |s| ==>
      Capitalize(s)[i] == if IsWordChar(s[i]) && (i == 0 || IsSpace(s[i - 1])) then ToUpperWordOrSpace(s[i]) else s[i]
  {
    CapitalizeFromMeans(s, true);
  }

  /** Upper-casing keeps a character's class and is idempotent. */
  lemma UpperKeepsClass(c: char)
    ensures IsWordChar(ToUpperWordOrSpace(c)) <==> IsWordChar(c)
    ensures IsSpace(ToUpperWordOrSpace(c)) <==> IsSpace(c)
    ensures ToUpperWordOrSpace(ToUpperWordOrSpace(c)) == ToUpperWordOrSpace(c)
  {
  }

  /** Capitalizing twice is capitalizing once. */
  lemma CapitalizeIdempotent(s: string)
    ensures Capitalize(Capitalize(s)) == Capitalize(s)
  {
    var once := Capitalize(s);
    CapitalizeMeans(s);
    CapitalizeMeans(once);
    forall i | 0 <= i < |s| ensures Capitalize(once)[i] == once[i] {
      UpperKeepsClass(s[i]);
      assert once[i] == s[i] || once[i] == ToUpperWordOrSpace(s[i]);
      if i > 0 {
        UpperKeepsClass(s[i - 1]);
        assert once[i - 1] == s[i - 1] || once[i - 1] == ToUpperWordOrSpace(s[i - 1]);
      }
    }
  }

  // ---------------------------------------------------------------------------
  // getNowTs and getDelay

  /** `Math.floor(Date.now() / 1000)`: Dafny's division by a positive divisor rounds down like `Math.floor`. */
  function NowTs(nowMs: int): int {
    nowMs / 1000
  }

  /** `getDelay(expires)`: the seconds left until `expires`, never negative. */
  function GetDelay(expires: int, nowMs: int): (delay: int)
    ensures delay >= 0
  {
    var d := expires - NowTs(nowMs);
    if d < 0 then 0 else d
  }

  /** The delay is `max(0, expires - now)`, it only shrinks as time passes, and it is 0 exactly once `expires` is reached. */
  lemma GetDelayMeans(expires: int, nowMs: int, laterMs: int)
    requires nowMs <= laterMs
    ensures GetDelay(expires, nowMs) == 0 <==> expires <= NowTs(nowMs)
    ensures GetDelay(expires, nowMs) > 0 ==> NowTs(nowMs) + GetDelay(expires, nowMs) == expires
    ensures GetDelay(expires, laterMs) <= GetDelay(expires, nowMs)
  {
    DivMonotone(nowMs, laterMs);
  }

  lemma DivMonotone(a: int, b: int)
    requires a <= b
    ensures a / 1000 <= b / 1000
  {
  }

  // ---------------------------------------------------------------------------
  // secondsToHuman

  const SecondsPerYear := 31536000
  const SecondsPerDay := 86400
  const SecondsPerHour := 3600

  /** JavaScript's `%`: the remainder takes the sign of the dividend. */
  function JsRem(a: int, b: int): (r: int)
    requires b > 0
    ensures a >= 0 ==> r == a % b
  {
    if a >= 0 then a % b else -((-a) % b)
  }

  /** The `locales` argument. */
  datatype Labels = Labels(years: string, days: string, hours: string, minutes: string, seconds: string)

  /** The default `locales`, with the years label exactly as the source file spells it (double-encoded UTF-8). */
  const FrenchLabels := Labels("ann\U{00C3}\U{00A9}es", "jours", "heures", "minutes", "secondes")

  /** One entry of `levels`: a count and its label. */
  datatype Level = Level(value: int, caption: string)

  /** The `levels` array; without seconds the minutes are counted from `seconds + 60`. */
  function Levels(seconds: int, showSeconds: bool, labels: Labels): seq<Level> {
    var inYear := JsRem(seconds, SecondsPerYear);
    var inDay := JsRem(inYear, SecondsPerDay);
    var inHour := JsRem(inDay, SecondsPerHour);
    var shifted := JsRem(JsRem(JsRem(seconds + (if showSeconds then 0 else 60), SecondsPerYear), SecondsPerDay),
                         SecondsPerHour);
    [ Level(seconds / SecondsPerYear, labels.years),
      Level(inYear / SecondsPerDay, labels.days),
      Level(inDay / SecondsPerHour, labels.hours),
      Level(shifted / 60, labels.minutes) ]
    + (if showSeconds then [Level(JsRem(inHour, 60), labels.seconds)] else [])
  }

  /** `label.substr(0, label.length - 1)`: the label without its last character. */
  function Singular(caption: string): (r: string)
    ensures caption == [] ==> r == []
    ensures caption != [] ==> r + [caption[|caption| - 1]] == caption
  {
    if caption == [] then [] else caption[..|caption| - 1]
  }

  /** `(value < 10 ? "0" : "") + value` */
  function Padded(value: int): string {
    (if value < 10 then "0" else "") + IntToString(value)
  }

  /** The text one non-zero level adds: a space, the padded count, a space and the label. */
  function Piece(l: Level): string {
    " " + Padded(l.value) + " " + (if l.value == 1 then Singular(l.caption) else l.caption)
  }

  /** The accumulated `returntext` after the given levels: zero counts add nothing. */
  function Render(levels: seq<Level>): string {
    if levels == [] then ""
    else
      Render(levels[..|levels| - 1]) + Shown(levels[|levels| - 1])
  }

  /** What one level adds to `returntext`: nothing for a zero count (`continue`), else its piece. */
  function Shown(l: Level): string {
    if l.value == 0 then "" else Piece(l)
  }

  /** The result of `secondsToHuman(seconds, showSeconds, locales)`. */
  function HumanText(seconds: int, showSeconds: bool, labels: Labels): string {
    Trim(Render(Levels(seconds, showSeconds, labels)))
  }

  /** `secondsToHuman`: builds `levels`, then appends one piece per non-zero level and trims. */
  method SecondsToHuman(seconds: int, showSeconds: bool, labels: Labels) returns (text: string)
    ensures text == HumanText(seconds, showSeconds, labels)
  {
    var inYear := JsRem(seconds, SecondsPerYear);
    var inDay := JsRem(inYear, SecondsPerDay);
    var shifted := JsRem(JsRem(JsRem(seconds + (if showSeconds then 0 else 60), SecondsPerYear), SecondsPerDay),
                         SecondsPerHour);
    var levels := [ Level(seconds / SecondsPerYear, labels.years),
                    Level(inYear / SecondsPerDay, labels.days),
                    Level(inDay / SecondsPerHour, labels.hours),
                    Level(shifted / 60, labels.minutes) ];
    if showSeconds {
      levels := levels + [Level(JsRem(JsRem(inDay, SecondsPerHour), 60), labels.seconds)];
    }
    assert levels == Levels(seconds, showSeconds, labels);
    var returntext := Accumulate(levels);
    text := Trim(returntext);
  }

  /** The `for` loop of `secondsToHuman`: skip a zero count, else append its piece. */
  method Accumulate(levels: seq<Level>) returns (returntext: string)
    ensures returntext == Render(levels)
  {
    returntext := "";
    for i := 0 to |levels|
      invariant returntext == Render(levels[..i])
    {
      assert levels[..i + 1][..i] == levels[..i];
      if levels[i].value == 0 {
        continue;
      }
      returntext := returntext + Piece(levels[i]);
    }
    assert levels[..|levels|] == levels;
  }

  /** Zero counts add nothing: the text is that of the non-zero levels alone. */
  lemma {:induction false} RenderSkipsZeros(levels: seq<Level>)
    ensures Render(levels) == Render(Filter(levels, NonZero()))
  {
    if levels != [] {
      var head, tail := levels[0], levels[1..];
      assert levels == [head] + tail;
      RenderSkipsZeros(tail);
      RenderConcat([head], tail);
      assert [head][..0] == [];
      if head.value == 0 {
        assert Render([head]) == "";
      } else {
        RenderConcat([head], Filter(tail, NonZero()));
      }
    }
  }

  lemma RenderSnoc(x: seq<Level>, l: Level)
    ensures Render(x + [l]) == Render(x) + Shown(l)
  {
    var y := x + [l];
    assert y[..|y| - 1] == x;
  }

  /** The text of consecutive levels is the concatenation of their texts. */
  lemma {:induction false} RenderConcat(a: seq<Level>, b: seq<Level>)
    ensures Render(a + b) == Render(a) + Render(b)
  {
    if b == [] {
      assert a + b == a;
    } else {
      var init, last := b[..|b| - 1], b[|b| - 1];
      assert b == init + [last];
      assert a + b == (a + init) + [last];
      RenderSnoc(a + init, last);
      RenderSnoc(init, last);
      RenderConcat(a, init);
      ConcatAssoc(Render(a), Render(init), Shown(last));
    }
  }

  function NonZero(): Level -> bool {
    (l: Level) => l.value != 0
  }

  /** With seconds shown, no time gives the empty text. */
  lemma HumanTextOfZero(labels: Labels)
    ensures HumanText(0, true, labels) == ""
  {
    var levels := Levels(0, true, labels);
    assert forall k :: 0 <= k < |levels| ==> levels[k].value == 0;
    RenderOfZeros(levels);
  }

  lemma {:induction false} RenderOfZeros(levels: seq<Level>)
    requires forall k :: 0 <= k < |levels| ==> levels[k].value == 0
    ensures Render(levels) == ""
  {
    if levels != [] {
      RenderOfZeros(levels[..|levels| - 1]);
    }
  }

  /** Without seconds, no time at all reads as one minute: the `+ 60` rounds up. */
  lemma ZeroWithoutSecondsIsAMinute(labels: Labels)
    ensures Levels(0, false, labels) == [Level(0, labels.years), Level(0, labels.days), Level(0, labels.hours),
                                          Level(1, labels.minutes)]
  {
  }

  /** But the rounding does not carry: 59 minutes 59 seconds without seconds shows no level at all. */
  lemma JustUnderAnHourWithoutSeconds(labels: Labels)
    ensures HumanText(3599, false, labels) == ""
  {
    var levels := Levels(3599, false, labels);
    assert levels[3].value == 0;
    assert forall k :: 0 <= k < |levels| ==> levels[k].value == 0;
    RenderOfZeros(levels);
  }

  /**
   * For a non-negative count with seconds shown, the five levels are the years, days below 365,
   * hours below 24, minutes below 60 and seconds below 60 whose weighted sum is the input.
   */
  lemma LevelsDecompose(seconds: int, labels: Labels)
    requires seconds >= 0
    ensures var l := Levels(seconds, true, labels);
      && |l| == 5
      && l[0].value >= 0
      && 0 <= l[1].value < 365 && 0 <= l[2].value < 24 && 0 <= l[3].value < 60 && 0 <= l[4].value < 60
      && l[0].value * SecondsPerYear + l[1].value * SecondsPerDay + l[2].value * SecondsPerHour
         + l[3].value * 60 + l[4].value == seconds
  {
    var a := seconds % SecondsPerYear;
    var b := a % SecondsPerDay;
    var c := b % SecondsPerHour;
    DivModParts(seconds, SecondsPerYear);
    DivModParts(a, SecondsPerDay);
    DivModParts(b, SecondsPerHour);
    DivModParts(c, 60);
  }

  lemma DivModParts(x: int, k: int)
    requires x >= 0 && k > 0
    ensures x == (x / k) * k + x % k && 0 <= x % k < k && x / k >= 0
  {
  }

  /** A level of one uses the label without its last character, as in "minutes" to "minute". */
  lemma SingularPiece(caption: string)
    ensures Piece(Level(1, caption)) == " 01 " + Singular(caption)
  {
    assert Padded(1) == "01";
  }

  /** An hour, a minute and a second: three singular, zero-padded pieces, the years and days left out. */
  lemma HourMinuteSecondExample(labels: Labels)
    requires |labels.seconds| >= 2 && !IsSpace(labels.seconds[|labels.seconds| - 2])
    ensures HumanText(3661, true, labels)
      == "01 " + Singular(labels.hours) + " 01 " + Singular(labels.minutes) + " 01 " + Singular(labels.seconds)
  {
    var text := RenderOfSingulars(labels.hours, labels.minutes, labels.seconds);
    assert Render(Levels(3661, true, labels)) == " " + text + "" by {
      var zeros := [Level(0, labels.years), Level(0, labels.days)];
      var ones := [Level(1, labels.hours), Level(1, labels.minutes), Level(1, labels.seconds)];
      LevelsOfAnHourAMinuteASecond(labels);
      RenderConcat(zeros, ones);
      RenderOfZeros(zeros);
    }
    TrimOfPadded(" ", text, "");
  }

  lemma LevelsOfAnHourAMinuteASecond(labels: Labels)
    ensures Levels(3661, true, labels) == [Level(0, labels.years), Level(0, labels.days)]
      + [Level(1, labels.hours), Level(1, labels.minutes), Level(1, labels.seconds)]
  {}

  lemma RenderOfSingulars(h: string, m: string, c: string) returns (text: string)
    ensures text == "01 " + Singular(h) + " 01 " + Singular(m) + " 01 " + Singular(c)
    ensures Render([Level(1, h), Level(1, m), Level(1, c)]) == " " + text
    ensures text != [] && !IsSpace(text[0])
    ensures |c| >= 2 ==> text[|text| - 1] == c[|c| - 2]
  {
    text := "01 " + Singular(h) + " 01 " + Singular(m) + " 01 " + Singular(c);
    assert |c| >= 2 ==> text[|text| - 1] == c[|c| - 2] by {
      var front := "01 " + Singular(h) + " 01 " + Singular(m) + " 01 ";
      assert text == front + Singular(c);
      LastOfSingular(c);
    }
    assert Render([Level(1, h), Level(1, m), Level(1, c)]) == " " + text by {
      RenderOfThree(Level(1, h), Level(1, m), Level(1, c));
      SingularPiece(h);
      SingularPiece(m);
      SingularPiece(c);
      assert " 01 " == " " + "01 ";
      PiecesRegroup(Singular(h), Singular(m), Singular(c));
    }
  }

  lemma RenderOfThree(a: Level, b: Level, c: Level)
    ensures Render([a, b, c]) == "" + Shown(a) + Shown(b) + Shown(c)
  {
    assert [a][..0] == [];
    assert Render([a]) == "" + Shown(a);
    assert [a, b][..1] == [a];
    assert Render([a, b]) == Render([a]) + Shown(b);
    assert [a, b, c][..2] == [a, b];
    assert Render([a, b, c]) == Render([a, b]) + Shown(c);
  }

  lemma LastOfSingular(c: string)
    ensures |c| >= 2 ==> forall a: string :: (a + Singular(c))[|a + Singular(c)| - 1] == c[|c| - 2]
  {
    if |c| >= 2 {
      assert Singular(c) + [c[|c| - 1]] == c;
      assert Singular(c)[|c| - 2] == c[|c| - 2];
    }
  }

  lemma PiecesRegroup(sh: string, sm: string, sc: string)
    ensures "" + ((" " + "01 ") + sh) + (" 01 " + sm) + (" 01 " + sc)
      == " " + ("01 " + sh + " 01 " + sm + " 01 " + sc)
  {}

  /** The padded count of a positive level reads back as that count. */
  lemma PaddedReadsBack(value: int)
    requires value >= 1
    ensures ParseInt(Padded(value)) == Some(value)
    ensures |Padded(value)| >= 2
  {
    if value >= 10 {
      assert Padded(value) == IntToString(value);
      ParseIntOfIntToString(value);
      assert |NatToString(value)| >= 2;
    } else {
      PaddedDigitReadsBack(value);
    }
  }

  lemma PaddedDigitReadsBack(value: int)
    requires 1 <= value < 10
    ensures ParseInt(Padded(value)) == Some(value) && |Padded(value)| == 2
  {
    var c := DecimalDigit(value);
    var s := Padded(value);
    assert s == ['0', c];
    ParseMagnitudeOfDigits(s);
    DecimalDigitValue(value);
    LeadingZeroValue(c);
    assert !IsSpace(s[0]);
    TrimStartOfUnpadded(s);
  }

  lemma LeadingZeroValue(c: char)
    requires IsDigit(c)
    ensures DigitsValue(['0', c], 10) == DigitValue(c)
  {
    assert ['0', c][..1] == ['0'];
    assert ['0'][..0] == [];
  }

  // ---------------------------------------------------------------------------
  // isValidToken

  /** `/^[0-9a-fA-F]+$/.test(token)` */
  predicate HexOnly(t: string) {
    |t| >= 1 && IsHexChar(t[0]) && (|t| == 1 || HexOnly(t[1..]))
  }

  /** `token && token.length === env.TOKENS_LENGTH * 2 && /^[0-9a-fA-F]+$/.test(token)`, as a truth value. */
  predicate IsValidToken(token: string, tokensLength: int) {
    token != "" && |token| == tokensLength * 2 && HexOnly(token)
  }

  lemma {:induction false} HexOnlyMeans(t: string)
    ensures HexOnly(t) <==> |t| >= 1 && forall k :: 0 <= k < |t| ==> IsHexChar(t[k])
  {
    if |t| > 1 {
      HexOnlyMeans(t[1..]);
      assert forall k :: 1 <= k < |t| ==> t[k] == t[1..][k - 1];
    }
  }

  /** A token is accepted exactly when it is non-empty, twice `TOKENS_LENGTH` long and hexadecimal throughout. */
  lemma IsValidTokenMeans(token: string, tokensLength: int)
    ensures IsValidToken(token, tokensLength) <==>
      |token| > 0 && |token| == 2 * tokensLength && forall k :: 0 <= k < |token| ==> IsHexChar(token[k])
  {
    HexOnlyMeans(token);
  }

  /** The hexadecimal secret the server mails for `TOKENS_LENGTH` random bytes passes the client check. */
  lemma IssuedSecretIsValidToken(random: seq<byte>)
    requires |random| > 0
    ensures IsValidToken(HexEncode(random), |random|)
  {
    IsValidTokenMeans(HexEncode(random), |random|);
  }
}
