/**
 * The tracker's small rendering helpers: readable durations, death ordinals,
 * the death emoji and colour tiers, rank labels, and the day/night messages.
 * A chat message is reduced to an `Embed` of title, description lines and colour.
 */
module Render {
  import opened Util
  import opened Text

  /** A chat embed; the description is `lines` joined with newlines. */
  datatype Embed = Embed(title: string, lines: seq<string>, color: int)

  // ---------------------------------------------------------------- format_time

  /** `"s"` unless the count is exactly one. */
  function Plural(n: int): string
  {
    if n != 1 then "s" else ""
  }

  function Quantity(n: int, w: string): string
  {
    IntToString(n) + " " + w + Plural(n)
  }

  /** Hours as "X days, Y hours"; the days part only when there is at least one day. */
  function FormatTime(hours: real): string
  {
    var whole := hours.Floor;
    var days := whole / 24;
    var remaining := whole % 24;
    if days > 0 then Quantity(days, "day") + ", " + Quantity(remaining, "hour")
    else Quantity(remaining, "hour")
  }

  /** Reads one "N word" or "N words" back. */
  function ReadQuantity(text: string, w: string): Option<int>
  {
    var words := Split(text, ' ');
    if |words| == 2 && (words[1] == w || words[1] == w + "s") then ParseInt(words[0]) else None
  }

  /** The inverse of `FormatTime`: the day and hour counts a rendered duration shows. */
  function ReadTime(text: string): Option<(int, int)>
  {
    var parts := Split(text, ',');
    if |parts| == 1 then
      match ReadQuantity(parts[0], "hour")
      case Some(h) => Some((0, h))
      case None => None
    else if |parts| == 2 && |parts[1]| > 0 && parts[1][0] == ' ' then
      match (ReadQuantity(parts[0], "day"), ReadQuantity(parts[1][1..], "hour"))
      case (Some(d), Some(h)) => Some((d, h))
      case _ => None
    else None
  }

  lemma ReadQuantityOf(n: int, w: string)
    requires ' ' !in w && ',' !in w
    ensures ReadQuantity(Quantity(n, w), w) == Some(n)
    ensures ',' !in Quantity(n, w)
  {
    IntToStringChars(n);
    var tail := w + Plural(n);
    assert Quantity(n, w) == IntToString(n) + [' '] + tail;
    SplitAtSeparator(IntToString(n), tail, ' ');
    SplitNoSeparator(tail, ' ');
    ParseIntOfString(n);
  }

  /** A non-negative duration can be read back: the text shows floor(hours) split
      into whole days and the remaining hours, so nothing but floor(hours) matters. */
  lemma ReadFormatTime(hours: real)
    requires hours >= 0.0
    ensures ReadTime(FormatTime(hours)) == Some((hours.Floor / 24, hours.Floor % 24))
  {
    var whole := hours.Floor;
    var days, remaining := whole / 24, whole % 24;
    ReadQuantityOf(days, "day");
    ReadQuantityOf(remaining, "hour");
    if days > 0 {
      ReadDaysAndHours(Quantity(days, "day"), Quantity(remaining, "hour"), days, remaining);
    } else {
      ReadHoursOnly(Quantity(remaining, "hour"), remaining);
    }
  }

  lemma ReadHoursOnly(text: string, h: int)
    requires ',' !in text && ReadQuantity(text, "hour") == Some(h)
    ensures ReadTime(text) == Some((0, h))
  {
    SplitNoSeparator(text, ',');
  }

  lemma ReadDaysAndHours(a: string, b: string, d: int, h: int)
    requires ',' !in a && ',' !in b
    requires ReadQuantity(a, "day") == Some(d) && ReadQuantity(b, "hour") == Some(h)
    ensures ReadTime(a + ", " + b) == Some((d, h))
  {
    var second := " " + b;
    assert a + ", " + b == a + [','] + second;
    SplitAtSeparator(a, second, ',');
    SplitNoSeparator(second, ',');
    assert second[1..] == b;
    ReadTimeOfParts(a + ", " + b, a, b, d, h);
  }

  lemma ReadTimeOfParts(text: string, a: string, b: string, d: int, h: int)
    requires Split(text, ',') == [a, " " + b]
    requires ReadQuantity(a, "day") == Some(d) && ReadQuantity(b, "hour") == Some(h)
    ensures ReadTime(text) == Some((d, h))
  {
    assert (" " + b)[1..] == b;
  }

  /** Two non-negative durations render alike exactly when their whole hours agree. */
  lemma FormatTimeInjective(a: real, b: real)
    requires a >= 0.0 && b >= 0.0
    ensures FormatTime(a) == FormatTime(b) <==> a.Floor == b.Floor
  {
    ReadFormatTime(a);
    ReadFormatTime(b);
  }

  /** The examples the tracker's own tests check. */
  lemma FormatTimeExamples()
    ensures FormatTime(5.5) == "5 hours"
    ensures FormatTime(1.0) == "1 hour"
    ensures FormatTime(25.0) == "1 day, 1 hour"
    ensures FormatTime(50.5) == "2 days, 2 hours"
  {
    QuantityExample(5, "hour", "5 hours");
    QuantityExample(1, "hour", "1 hour");
    QuantityExample(1, "day", "1 day");
    QuantityExample(2, "hour", "2 hours");
    QuantityExample(2, "day", "2 days");
    FormatTimeOf(5.5, 0, 5);
    FormatTimeOf(1.0, 0, 1);
    FormatTimeOf(25.0, 1, 1);
    FormatTimeOf(50.5, 2, 2);
  }

  lemma FormatTimeOf(hours: real, days: int, remaining: int)
    requires 0 <= remaining < 24 && 0 <= days && hours.Floor == 24 * days + remaining
    ensures days == 0 ==> FormatTime(hours) == Quantity(remaining, "hour")
    ensures days > 0 ==> FormatTime(hours) == Quantity(days, "day") + ", " + Quantity(remaining, "hour")
  {
    DivMod24(hours.Floor, days, remaining);
  }

  lemma DivMod24(w: int, days: int, remaining: int)
    requires 0 <= remaining < 24 && w == 24 * days + remaining
    ensures w / 24 == days && w % 24 == remaining
  {
  }

  lemma QuantityExample(n: int, w: string, text: string)
    requires 0 <= n < 10 && text == [DigitChar(n), ' '] + w + (if n == 1 then "" else "s")
    ensures Quantity(n, w) == text
  {
  }

  // ---------------------------------------------------------------- ordinals

  function OrdinalSuffix(count: int): string
  {
    if 10 <= count % 100 <= 20 then "th"
    else if count % 10 == 1 then "st"
    else if count % 10 == 2 then "nd"
    else if count % 10 == 3 then "rd"
    else "th"
  }

  /** "1st", "2nd", "3rd", "4th", ..., "11th", "12th", "13th", ..., "21st". */
  function DeathOrdinal(count: int): string
  {
    IntToString(count) + OrdinalSuffix(count)
  }

  /** An ordinal is the number followed by a two-letter suffix chosen from the last
      two digits: "th" for 10 to 20, otherwise by the last digit. */
  lemma DeathOrdinalParts(count: int)
    ensures var r := DeathOrdinal(count);
      |r| >= 3 && ParseInt(r[..|r| - 2]) == Some(count)
      && (r[|r| - 2..] == "th" <==> 10 <= count % 100 <= 20 || count % 10 !in {1, 2, 3})
      && (r[|r| - 2..] == "st" <==> !(10 <= count % 100 <= 20) && count % 10 == 1)
      && (r[|r| - 2..] == "nd" <==> !(10 <= count % 100 <= 20) && count % 10 == 2)
      && (r[|r| - 2..] == "rd" <==> !(10 <= count % 100 <= 20) && count % 10 == 3)
  {
    var r := DeathOrdinal(count);
    assert r[..|r| - 2] == IntToString(count);
    assert r[|r| - 2..] == OrdinalSuffix(count);
    ParseIntOfString(count);
  }

  lemma DeathOrdinalExamples()
    ensures DeathOrdinal(1) == "1st" && DeathOrdinal(2) == "2nd" && DeathOrdinal(3) == "3rd"
    ensures DeathOrdinal(4) == "4th" && DeathOrdinal(11) == "11th" && DeathOrdinal(12) == "12th"
    ensures DeathOrdinal(13) == "13th" && DeathOrdinal(21) == "21st"
  {
  }

  // ---------------------------------------------------------------- death tiers

  function DeathEmoji(count: int): string
  {
    if count == 1 then "\U{1F480}"
    else if count <= 3 then "\U{2620}\U{FE0F}"
    else if count <= 5 then "\U{26B0}\U{FE0F}"
    else if count <= 10 then "\U{1F47B}"
    else "\U{1F3F4}\U{200D}\U{2620}\U{FE0F}"
  }

  function DeathColor(count: int): int
  {
    if count == 1 then 0xFF0000
    else if count <= 3 then 0xFF6600
    else if count <= 5 then 0xFF9900
    else if count <= 10 then 0xFFCC00
    else 0x990000
  }

  /** The tier a death count falls in: 1, up to 3, up to 5, up to 10, above 10. */
  function DeathTier(count: int): nat
  {
    if count == 1 then 0 else if count <= 3 then 1 else if count <= 5 then 2 else if count <= 10 then 3 else 4
  }

  /** The emoji and the colour of a death message follow the same five tiers. */
  lemma EmojiAndColorShareTiers(a: int, b: int)
    ensures DeathEmoji(a) == DeathEmoji(b) <==> DeathTier(a) == DeathTier(b)
    ensures DeathColor(a) == DeathColor(b) <==> DeathTier(a) == DeathTier(b)
  {
  }

  // ---------------------------------------------------------------- ranks

  /** Gold, silver and bronze. */
  const Medals: seq<string> := ["\U{1F947}", "\U{1F948}", "\U{1F949}"]

  /** Gold, silver and bronze medals for the first three places, "**i.**" below. */
  function RankLabel(i: nat): (r: string)
  {
    if i < |Medals| then Medals[i] else "**" + IntToString(i + 1) + ".**"
  }

  /** The first three ranks get the gold, silver and bronze medals, each one character;
      numbered labels show the 1-based rank. */
  lemma RankLabelShowsRank(i: nat)
    ensures i == 0 ==> RankLabel(i) == "\U{1F947}"
    ensures i == 1 ==> RankLabel(i) == "\U{1F948}"
    ensures i == 2 ==> RankLabel(i) == "\U{1F949}"
    ensures i < 3 ==> |RankLabel(i)| == 1
    ensures i >= 3 ==> var r := RankLabel(i); |r| > 5 && ParseInt(r[2..|r| - 3]) == Some(i + 1)
  {
    if i >= 3 {
      var r := RankLabel(i);
      assert r[2..|r| - 3] == IntToString(i + 1);
      ParseIntOfString(i + 1);
    }
  }

  /** No two ranks share a label. */
  lemma RankLabelsDistinct(i: nat, j: nat)
    requires i != j
    ensures RankLabel(i) != RankLabel(j)
  {
    RankLabelShowsRank(i);
    RankLabelShowsRank(j);
  }

  // ---------------------------------------------------------------- day / night

  /** Round to the nearest integer, halves to even (what `:.2f` does to the scaled value). */
  function RoundHalfEven(x: real): (n: int)
    ensures x - 0.5 <= n as real <= x + 0.5
    ensures x - x.Floor as real != 0.5 ==> x - 0.5 < n as real < x + 0.5
    ensures x - x.Floor as real == 0.5 ==> n % 2 == 0
  {
    var f := x.Floor;
    var frac := x - f as real;
    if frac > 0.5 then f + 1
    else if frac < 0.5 then f
    else if f % 2 == 0 then f else f + 1
  }

  /** `f"{x:.2f}"` on an exact value. */
  function FormatFixed2(x: real): string
  {
    var n := RoundHalfEven(x * 100.0);
    var m: nat := if n < 0 then -n else n;
    (if x < 0.0 then "-" else "") + NatToString(m / 100) + "." + [DigitChar(m % 100 / 10), DigitChar(m % 10)]
  }

  function SunriseNotice(gameDay: int, lightLevel: real): Embed
  {
    Embed("\U{1F305} The sun is rising...",
          ["**Day " + IntToString(gameDay + 1) + "** begins.", "",
           "\U{1F506} Light Level: " + FormatFixed2(lightLevel), "", "Stay alert. Stay alive."],
          0xFFD700)
  }

  function SunsetNotice(gameDay: int, lightLevel: real): Embed
  {
    Embed("\U{1F319} Darkness falls...",
          ["**Night " + IntToString(gameDay + 1) + "** approaches.", "",
           "\U{1F311} Light Level: " + FormatFixed2(lightLevel), "", "The dead are more dangerous in the dark."],
          0x191970)
  }

  /** The message for day `d` announces day `d + 1`, as the tests expect ("Day 6" for day 5). */
  lemma SunriseAnnouncesNextDay(gameDay: int, lightLevel: real)
    ensures SunriseNotice(gameDay, lightLevel).lines[0] == "**Day " + IntToString(gameDay + 1) + "** begins."
    ensures SunriseNotice(5, lightLevel).lines[0] == "**Day 6** begins."
  {
  }
}
