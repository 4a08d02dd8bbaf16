/**
 * timeToWords: a 24-hour clock time `H:MM` read out in English,
 * "midnight", "noon", or "<hour> <minutes> am|pm".
 *
 * The hour and the minute are the integers the source obtains from
 * `time.split(':').map(Number)`; the function is modelled for every
 * integer pair, with JavaScript's truncating `%`, its `||` on table
 * lookups and its rendering of a missing entry as "undefined". The
 * facts about real clock times are stated for 0 <= hour < 24 and
 * 0 <= minute < 60.
 */
module TimeWord {
  import opened Wrappers
  import Text

  /**
   * `numbersToWords[n]`, the number-word table: 0..20 and the tens 30, 40
   * and 50, with key 0 reading "twelve" as 12 does. `None` stands for the
   * `undefined` a missing key gives.
   */
  function Lookup(n: int): Option<string>
  {
    match n
    case 0 => Some("twelve")     case 1 => Some("one")        case 2 => Some("two")
    case 3 => Some("three")      case 4 => Some("four")       case 5 => Some("five")
    case 6 => Some("six")        case 7 => Some("seven")      case 8 => Some("eight")
    case 9 => Some("nine")       case 10 => Some("ten")       case 11 => Some("eleven")
    case 12 => Some("twelve")    case 13 => Some("thirteen")  case 14 => Some("fourteen")
    case 15 => Some("fifteen")   case 16 => Some("sixteen")   case 17 => Some("seventeen")
    case 18 => Some("eighteen")  case 19 => Some("nineteen")  case 20 => Some("twenty")
    case 30 => Some("thirty")    case 40 => Some("forty")     case 50 => Some("fifty")
    case _ => None
  }

  /** JavaScript `a || b` on two lookups: `a` when it is a non-empty string, otherwise `b`. */
  function OrElse(a: Option<string>, b: Option<string>): Option<string>
  {
    if a.Some? && a.value != "" then a else b
  }

  /** The text a lookup result contributes to a string concatenation. */
  function Render(o: Option<string>): string
  {
    if o.Some? then o.value else "undefined"
  }

  /** JavaScript `a % b` for `b > 0`: truncating division, so the remainder has the sign of `a`. */
  function JsRem(a: int, b: int): int
    requires b > 0
  {
    if a >= 0 then a % b else -((-a) % b)
  }

  /** The half-day marker chosen by `hour < 12`. */
  function Suffix(hour: int): string
  {
    if hour < 12 then "am" else "pm"
  }

  /** `numbersToWords[hour % 12] || numbersToWords[hour]`. */
  function HourWord(hour: int): Option<string>
  {
    OrElse(Lookup(JsRem(hour, 12)), Lookup(hour))
  }

  /** The minute word: empty for a minute that is not positive, a table word up to 20, tens and ones above. */
  function MinuteWord(minute: int): Option<string>
  {
    if 0 < minute <= 20 then Lookup(minute)
    else if minute > 20 then
      var tens := (minute / 10) * 10;
      var ones := minute % 10;
      if ones > 0 then Some(Render(Lookup(tens)) + " " + Render(Lookup(ones)))
      else Lookup(tens)
    else Some("")
  }

  /** `s` ends with `t`. */
  predicate EndsWith(s: string, t: string)
  {
    |t| <= |s| && s[|s| - |t|..] == t
  }

  /** A stem followed by the half-day marker ends in " am" or " pm" and is neither special word. */
  lemma MarkedShape(stem: string, hour: int)
    ensures var r := stem + " " + Suffix(hour);
      && r != "midnight" && r != "noon"
      && (EndsWith(r, " am") <==> hour < 12) && (EndsWith(r, " pm") <==> hour >= 12)
  {
    var r := stem + " " + Suffix(hour);
    assert r[|r| - 3..] == " " + Suffix(hour);
    assert r[|r| - 1] == 'm';
    assert " am"[1] != " pm"[1];
  }

  /** timeToWords on a parsed hour and minute. */
  function TimeToWords(hour: int, minute: int): (r: string)
    ensures r == "midnight" <==> hour == 0 && minute == 0
    ensures r == "noon" <==> hour == 12 && minute == 0
    ensures !(minute == 0 && (hour == 0 || hour == 12)) ==>
              (EndsWith(r, " am") <==> hour < 12) && (EndsWith(r, " pm") <==> hour >= 12)
  {
    if hour == 0 && minute == 0 then "midnight"
    else if hour == 12 && minute == 0 then "noon"
    else
      var stem := Stem(hour, minute);
      MarkedShape(stem, hour);
      stem + " " + Suffix(hour)
  }

  /** Everything of an ordinary reading before the half-day marker: the three template literals' common prefix. */
  function Stem(hour: int, minute: int): string
  {
    Template(Render(HourWord(hour)), minute, Render(MinuteWord(minute)))
  }

  /** The three template literals without the marker, on the rendered hour word and minute word. */
  function Template(hw: string, minute: int, mw: string): string
  {
    if minute == 0 then hw + " o'clock"
    else if minute < 10 then hw + " oh " + mw
    else hw + " " + mw
  }

  // ---------------------------------------------------------------------
  // A reference reading of clock times, written independently of the table

  /** A time of day on the 24-hour clock. */
  predicate ValidTime(hour: int, minute: int)
  {
    0 <= hour < 24 && 0 <= minute < 60
  }

  /** Hour names on the 12-hour dial, indexed by the hour modulo 12. */
  const ClockNames: seq<string> :=
    ["twelve", "one", "two", "three", "four", "five",
     "six", "seven", "eight", "nine", "ten", "eleven"]

  /** Names of 1..19 (index 0 is unused). */
  const Units: seq<string> :=
    ["", "one", "two", "three", "four", "five", "six", "seven", "eight", "nine",
     "ten", "eleven", "twelve", "thirteen", "fourteen", "fifteen", "sixteen",
     "seventeen", "eighteen", "nineteen"]

  /** Names of the multiples of ten from 20 to 50, indexed by the tens digit (indices 0 and 1 are unused). */
  const Tens: seq<string> := ["", "", "twenty", "thirty", "forty", "fifty"]

  /** The words naming a minute 1..59: one name up to nineteen, otherwise tens then a non-zero ones digit. */
  function MinuteNames(minute: int): seq<string>
    requires 0 < minute < 60
  {
    if minute < 20 then [Units[minute]]
    else if minute % 10 == 0 then [Tens[minute / 10]]
    else [Tens[minute / 10], Units[minute % 10]]
  }

  /** The words a clock time is read as. */
  function Words(hour: int, minute: int): seq<string>
    requires ValidTime(hour, minute)
  {
    if hour == 0 && minute == 0 then ["midnight"]
    else if hour == 12 && minute == 0 then ["noon"]
    else [ClockNames[hour % 12]] + Middle(minute) + [Suffix(hour)]
  }

  /** The words between the hour and the half-day marker. */
  function Middle(minute: int): seq<string>
    requires 0 <= minute < 60
  {
    if minute == 0 then ["o'clock"]
    else if minute < 10 then ["oh"] + MinuteNames(minute)
    else MinuteNames(minute)
  }

  /** Every table lookup made for a valid hour hits a defined key, and it names the hour on the 12-hour dial. */
  lemma HourWordDefined(hour: int)
    requires 0 <= hour < 24
    ensures Lookup(JsRem(hour, 12)).Some?
    ensures HourWord(hour) == Some(ClockNames[hour % 12])
  {
    var dial := if hour < 12 then hour else hour - 12;
    assert JsRem(hour, 12) == hour % 12 == dial;
    DialName(dial);
  }

  /** On the 12-hour dial the table agrees with the reference hour names, none of them empty. */
  lemma DialName(dial: int)
    requires 0 <= dial < 12
    ensures Lookup(dial) == Some(ClockNames[dial])
    ensures ClockNames[dial] != ""
  {
    if dial == 0 {} else if dial == 1 {} else if dial == 2 {} else if dial == 3 {}
    else if dial == 4 {} else if dial == 5 {} else if dial == 6 {} else if dial == 7 {}
    else if dial == 8 {} else if dial == 9 {} else if dial == 10 {} else {}
  }

  /** For 1..19 the table agrees with the reference unit names, none of them empty. */
  lemma UnitName(n: int)
    requires 1 <= n < 20
    ensures Lookup(n) == Some(Units[n])
    ensures Units[n] != ""
  {
    if n == 1 {} else if n == 2 {} else if n == 3 {} else if n == 4 {} else if n == 5 {}
    else if n == 6 {} else if n == 7 {} else if n == 8 {} else if n == 9 {} else if n == 10 {}
    else if n == 11 {} else if n == 12 {} else if n == 13 {} else if n == 14 {} else if n == 15 {}
    else if n == 16 {} else if n == 17 {} else if n == 18 {} else {}
  }

  /** For the multiples of ten from 20 to 50 the table agrees with the reference tens words, none of them empty. */
  lemma TensName(t: int)
    requires 2 <= t < 6
    ensures Lookup(10 * t) == Some(Tens[t])
    ensures Tens[t] != ""
  {
    if t == 2 {} else if t == 3 {} else if t == 4 {} else {}
  }

  /** A minute 1..20 is one table word, and that word is its reference name. */
  lemma MinuteWordLow(minute: int)
    requires 0 < minute <= 20
    ensures Lookup(minute).Some?
    ensures MinuteWord(minute) == Some(Text.Join(MinuteNames(minute), " "))
  {
    if minute < 20 {
      UnitName(minute);
      assert MinuteNames(minute) == [Units[minute]];
    } else {
      TensName(2);
      assert MinuteNames(minute) == [Tens[2]];
    }
  }

  /** A minute 21..59 is a tens word, then a ones word when the ones digit is not zero. */
  lemma MinuteWordHigh(minute: int)
    requires 20 < minute < 60
    ensures Lookup((minute / 10) * 10).Some?
    ensures minute % 10 > 0 ==> Lookup(minute % 10).Some?
    ensures MinuteWord(minute) == Some(Text.Join(MinuteNames(minute), " "))
  {
    var t, d := minute / 10, minute % 10;
    assert (minute / 10) * 10 == 10 * t;
    TensName(t);
    var names := MinuteNames(minute);
    if d == 0 {
      assert names == [Tens[t]];
    } else {
      UnitName(d);
      assert names == [Tens[t], Units[d]];
      assert Text.Join(names, " ") == Tens[t] + " " + Units[d];
    }
  }

  /** Every table lookup made for a minute 1..59 hits a defined key, and the minute word is the reference naming. */
  lemma MinuteWordDefined(minute: int)
    requires 0 < minute < 60
    ensures minute <= 20 ==> Lookup(minute).Some?
    ensures minute > 20 ==> Lookup((minute / 10) * 10).Some?
    ensures minute > 20 && minute % 10 > 0 ==> Lookup(minute % 10).Some?
    ensures MinuteWord(minute) == Some(Text.Join(MinuteNames(minute), " "))
  {
    if minute <= 20 {
      MinuteWordLow(minute);
    } else {
      MinuteWordHigh(minute);
    }
  }

  /** The template, filled with a word and the names of a positive minute, joins them with "oh" inserted below ten. */
  lemma TemplateJoin(hw: string, minute: int, names: seq<string>)
    requires minute > 0 && |names| > 0
    ensures Template(hw, minute, Text.Join(names, " "))
         == Text.Join([hw] + (if minute < 10 then ["oh"] + names else names), " ")
  {
    var j := Text.Join(names, " ");
    if minute < 10 {
      Text.JoinCons("oh", names, " ");
      Text.JoinCons(hw, ["oh"] + names, " ");
      OhSpacing(hw, j);
    } else {
      Text.JoinCons(hw, names, " ");
    }
  }

  /** " oh " is "oh" with a space on either side. */
  lemma OhSpacing(hw: string, j: string)
    ensures hw + " " + ("oh" + " " + j) == hw + " oh " + j
  {
  }

  /** The stem of a valid time is the template filled with the reference hour name and minute names. */
  lemma StemWords(hour: int, minute: int)
    requires ValidTime(hour, minute)
    ensures minute == 0 ==> Stem(hour, minute) == ClockNames[hour % 12] + " o'clock"
    ensures minute > 0 ==> Stem(hour, minute) == Template(ClockNames[hour % 12], minute, Text.Join(MinuteNames(minute), " "))
  {
    HourWordDefined(hour);
    if minute > 0 {
      MinuteWordDefined(minute);
    }
  }

  /** The stem of a valid time is its hour name and middle words, joined. */
  lemma StemReference(hour: int, minute: int)
    requires ValidTime(hour, minute)
    ensures Stem(hour, minute) == Text.Join([ClockNames[hour % 12]] + Middle(minute), " ")
  {
    StemWords(hour, minute);
    var hw := ClockNames[hour % 12];
    if minute == 0 {
      Text.JoinCons(hw, ["o'clock"], " ");
    } else {
      TemplateJoin(hw, minute, MinuteNames(minute));
    }
  }

  /** For a valid time, timeToWords is the reference words joined by single spaces. */
  lemma MatchesReference(hour: int, minute: int)
    requires ValidTime(hour, minute)
    ensures TimeToWords(hour, minute) == Text.Join(Words(hour, minute), " ")
  {
    if !(minute == 0 && (hour == 0 || hour == 12)) {
      var head := [ClockNames[hour % 12]] + Middle(minute);
      StemReference(hour, minute);
      Text.JoinAppend(head, [Suffix(hour)], " ");
    }
  }

  // ---------------------------------------------------------------------
  // Reading the words back: a left inverse of timeToWords on valid times

  /** The first position of `w` in `xs`, if any. */
  function IndexOf(xs: seq<string>, w: string): (r: Option<nat>)
    ensures r.Some? ==> r.value < |xs|
  {
    if |xs| == 0 then None
    else if xs[0] == w then Some(0)
    else match IndexOf(xs[1..], w)
      case None => None
      case Some(i) => Some(i + 1)
  }

  /** A word that occurs at `i` and nowhere earlier is found at `i`. */
  lemma {:induction false} IndexOfFirst(xs: seq<string>, i: nat)
    requires i < |xs|
    requires forall j :: 0 <= j < i ==> xs[j] != xs[i]
    ensures IndexOf(xs, xs[i]) == Some(i)
  {
    if i > 0 {
      assert xs[1..][i - 1] == xs[i];
      IndexOfFirst(xs[1..], i - 1);
    }
  }

  /** A word that does not occur is not found. */
  lemma {:induction false} IndexOfMissing(xs: seq<string>, w: string)
    requires w !in xs
    ensures IndexOf(xs, w) == None
  {
    if |xs| > 0 {
      IndexOfMissing(xs[1..], w);
    }
  }

  /** No word of the list occurs twice. */
  predicate Distinct(xs: seq<string>)
  {
    forall i, j :: 0 <= i < j < |xs| ==> xs[i] != xs[j]
  }

  /** The half-day marker read back as the hour it adds. */
  function HalfDay(w: string): Option<int>
  {
    if w == "am" then Some(0) else if w == "pm" then Some(12) else None
  }

  /** The middle words read back as a minute. */
  function ReadMinute(ms: seq<string>): Option<int>
  {
    if |ms| == 1 then ReadSingle(ms[0])
    else if |ms| == 2 then ReadPair(ms[0], ms[1])
    else None
  }

  /** A single middle word: "o'clock", a name of 10..19, or a tens word. */
  function ReadSingle(w: string): Option<int>
  {
    if w == "o'clock" then Some(0)
    else match IndexOf(Units, w)
      case Some(n) => if 10 <= n then Some(n) else None
      case None =>
        match IndexOf(Tens, w)
        case Some(t) => if 2 <= t then Some(10 * t) else None
        case None => None
  }

  /** Two middle words: "oh" and a digit name, or a tens word and a digit name. */
  function ReadPair(a: string, b: string): Option<int>
  {
    match IndexOf(Units, b)
    case None => None
    case Some(d) =>
      if !(1 <= d <= 9) then None
      else if a == "oh" then Some(d)
      else match IndexOf(Tens, a)
        case Some(t) => if 2 <= t then Some(10 * t + d) else None
        case None => None
  }

  /** A spoken time read back as the hour and minute it names. */
  function ReadTime(s: string): Option<(int, int)>
  {
    if s == "midnight" then Some((0, 0))
    else if s == "noon" then Some((12, 0))
    else ReadWords(Text.Split(s, ' '))
  }

  /** An ordinary reading, already split into words, read back as an hour and a minute. */
  function ReadWords(ws: seq<string>): Option<(int, int)>
  {
    if |ws| < 3 then None
    else match (IndexOf(ClockNames, ws[0]), ReadMinute(ws[1..|ws| - 1]), HalfDay(ws[|ws| - 1]))
      case (Some(h), Some(m), Some(half)) => Some((h + half, m))
      case _ => None
  }

  /** No hour name repeats. */
  lemma ClockNamesDistinct()
    ensures Distinct(ClockNames)
  {
  }

  /** No unit name repeats. */
  lemma UnitsDistinct()
    ensures Distinct(Units)
  {
  }

  /** The tens words are distinct, none is a unit name, and none is "oh". */
  lemma TensApart()
    ensures Distinct(Tens[2..])
    ensures forall t :: 2 <= t < |Tens| ==> Tens[t] !in Units && Tens[t] != "oh"
  {
  }

  /** "o'clock" and "oh" are not minute names. */
  lemma MarkerWordsApart()
    ensures "o'clock" !in Units && "o'clock" !in Tens && "oh" !in Units
  {
  }

  /** An hour name reads back as its position on the dial. */
  lemma ReadHourName(i: int)
    requires 0 <= i < 12
    ensures IndexOf(ClockNames, ClockNames[i]) == Some(i)
  {
    ClockNamesDistinct();
    IndexOfFirst(ClockNames, i);
  }

  /** The half-day marker reads back as the hours before the hour on the dial. */
  lemma ReadSuffix(hour: int)
    requires 0 <= hour < 24
    ensures HalfDay(Suffix(hour)) == Some(hour - hour % 12)
  {
    if hour < 12 {
      assert hour % 12 == hour;
    } else {
      assert hour % 12 == hour - 12;
      assert "pm" != "am";
    }
  }

  /** A unit name is found at its own position, and it is neither "oh" nor "o'clock". */
  lemma UnitIndex(n: int)
    requires 1 <= n < 20
    ensures IndexOf(Units, Units[n]) == Some(n)
    ensures Units[n] != "oh" && Units[n] != "o'clock"
  {
    UnitsDistinct();
    MarkerWordsApart();
    IndexOfFirst(Units, n);
  }

  /** A tens word is found at its own position among the tens, not among the units, and it is neither "oh" nor "o'clock". */
  lemma TensIndex(t: int)
    requires 2 <= t < 6
    ensures IndexOf(Tens, Tens[t]) == Some(t)
    ensures IndexOf(Units, Tens[t]) == None
    ensures Tens[t] != "oh" && Tens[t] != "o'clock"
  {
    TensApart();
    MarkerWordsApart();
    assert Tens[t] == Tens[2..][t - 2];
    IndexOfFirst(Tens, t);
    IndexOfMissing(Units, Tens[t]);
  }

  /** "oh" and a digit name read back as that digit. */
  lemma ReadOhDigit(d: int)
    requires 1 <= d <= 9
    ensures ReadMinute(["oh", Units[d]]) == Some(d)
  {
    assert ReadMinute(["oh", Units[d]]) == ReadPair("oh", Units[d]);
    UnitIndex(d);
  }

  /** A single name of 10..19 reads back as its number. */
  lemma ReadTeen(n: int)
    requires 10 <= n < 20
    ensures ReadMinute([Units[n]]) == Some(n)
  {
    assert ReadMinute([Units[n]]) == ReadSingle(Units[n]);
    UnitIndex(n);
  }

  /** A single tens word reads back as its multiple of ten. */
  lemma ReadTens(t: int)
    requires 2 <= t < 6
    ensures ReadMinute([Tens[t]]) == Some(10 * t)
  {
    assert ReadMinute([Tens[t]]) == ReadSingle(Tens[t]);
    TensIndex(t);
  }

  /** A tens word followed by a digit name reads back as their sum. */
  lemma ReadTensDigit(t: int, d: int)
    requires 2 <= t < 6 && 1 <= d <= 9
    ensures ReadMinute([Tens[t], Units[d]]) == Some(10 * t + d)
  {
    TensIndex(t);
    UnitIndex(d);
    ReadPairTens(Tens[t], Units[d], t, d);
    assert ReadMinute([Tens[t], Units[d]]) == ReadPair(Tens[t], Units[d]);
  }

  /** Two words found among the tens and among the digit names read as tens plus digit. */
  lemma ReadPairTens(a: string, b: string, t: int, d: int)
    requires IndexOf(Tens, a) == Some(t) && 2 <= t && a != "oh"
    requires IndexOf(Units, b) == Some(d) && 1 <= d <= 9
    ensures ReadPair(a, b) == Some(10 * t + d)
  {
  }

  /** The middle words of a minute below 20 read back as that minute. */
  lemma ReadMinuteMiddleLow(minute: int)
    requires 0 <= minute < 20
    ensures ReadMinute(Middle(minute)) == Some(minute)
  {
    if minute == 0 {
    } else if minute < 10 {
      assert Middle(minute) == ["oh", Units[minute]];
      ReadOhDigit(minute);
    } else {
      assert Middle(minute) == [Units[minute]];
      ReadTeen(minute);
    }
  }

  /** The middle words of a minute from 20 to 59 read back as that minute. */
  lemma ReadMinuteMiddleHigh(minute: int)
    requires 20 <= minute < 60
    ensures ReadMinute(Middle(minute)) == Some(minute)
  {
    if minute % 10 == 0 {
      ReadRoundMinute(minute);
    } else {
      ReadSplitMinute(minute);
    }
  }

  /** A round minute from 20 to 50 is one tens word, read back as that minute. */
  lemma ReadRoundMinute(minute: int)
    requires 20 <= minute < 60 && minute % 10 == 0
    ensures ReadMinute(Middle(minute)) == Some(minute)
  {
    var t := minute / 10;
    assert minute == 10 * t;
    assert Middle(minute) == [Tens[t]];
    ReadTens(t);
  }

  /** A minute from 21 to 59 with a non-zero ones digit is a tens word and a digit name, read back as that minute. */
  lemma ReadSplitMinute(minute: int)
    requires 20 <= minute < 60 && minute % 10 != 0
    ensures ReadMinute(Middle(minute)) == Some(minute)
  {
    var t, d := minute / 10, minute % 10;
    assert minute == 10 * t + d;
    assert Middle(minute) == [Tens[t], Units[d]];
    ReadTensDigit(t, d);
  }

  /** The middle words of a valid minute read back as that minute. */
  lemma ReadMinuteMiddle(minute: int)
    requires 0 <= minute < 60
    ensures ReadMinute(Middle(minute)) == Some(minute)
  {
    if minute < 20 {
      ReadMinuteMiddleLow(minute);
    } else {
      ReadMinuteMiddleHigh(minute);
    }
  }

  /** No word of the vocabulary holds a space, so splitting a joined reading recovers its words. */
  lemma VocabularyNoSpace(hour: int, minute: int)
    requires ValidTime(hour, minute)
    ensures ' ' !in ClockNames[hour % 12] && ' ' !in Suffix(hour)
    ensures forall k :: 0 <= k < |Middle(minute)| ==> ' ' !in Middle(minute)[k]
  {
    assert forall k :: 0 <= k < |ClockNames| ==> ' ' !in ClockNames[k];
    assert forall k :: 0 <= k < |Units| ==> ' ' !in Units[k];
    assert forall k :: 0 <= k < |Tens| ==> ' ' !in Tens[k];
  }

  /** The words strictly between the first and the last. */
  lemma Interior(first: string, mid: seq<string>, last: string)
    ensures var ws := [first] + mid + [last]; ws[1..|ws| - 1] == mid
  {
    var ws := [first] + mid + [last];
    assert forall k :: 0 <= k < |mid| ==> ws[1..|ws| - 1][k] == mid[k];
  }

  /** An hour word, middle words and a marker, joined, read back part by part. */
  lemma ReadJoined(first: string, mid: seq<string>, last: string, hour: nat, minute: int, half: int)
    requires ' ' !in first && ' ' !in last
    requires forall k :: 0 <= k < |mid| ==> ' ' !in mid[k]
    requires |mid| > 0
    requires Text.Join([first] + mid + [last], " ") != "midnight" && Text.Join([first] + mid + [last], " ") != "noon"
    requires IndexOf(ClockNames, first) == Some(hour)
    requires ReadMinute(mid) == Some(minute)
    requires HalfDay(last) == Some(half)
    ensures ReadTime(Text.Join([first] + mid + [last], " ")) == Some((hour + half, minute))
  {
    var ws := [first] + mid + [last];
    Interior(first, mid, last);
    assert ReadWords(ws) == Some((hour + half, minute));
    Text.SplitJoin(ws, ' ');
  }

  /** The words of an ordinary valid time, neither midnight nor noon, read back as that time. */
  lemma ReadOrdinary(hour: int, minute: int)
    requires ValidTime(hour, minute)
    requires !(minute == 0 && (hour == 0 || hour == 12))
    requires Text.Join(Words(hour, minute), " ") != "midnight" && Text.Join(Words(hour, minute), " ") != "noon"
    ensures ReadTime(Text.Join(Words(hour, minute), " ")) == Some((hour, minute))
  {
    assert Words(hour, minute) == [ClockNames[hour % 12]] + Middle(minute) + [Suffix(hour)];
    VocabularyNoSpace(hour, minute);
    ReadHourName(hour % 12);
    ReadMinuteMiddle(minute);
    ReadSuffix(hour);
    ReadJoined(ClockNames[hour % 12], Middle(minute), Suffix(hour), hour % 12, minute, hour - hour % 12);
  }

  /** Reading the spoken words of a valid time gives the time back. */
  lemma ReadTimeRoundTrip(hour: int, minute: int)
    requires ValidTime(hour, minute)
    ensures ReadTime(TimeToWords(hour, minute)) == Some((hour, minute))
  {
    MatchesReference(hour, minute);
    if !(minute == 0 && (hour == 0 || hour == 12)) {
      ReadOrdinary(hour, minute);
    }
  }

  /** timeToWords never reads two valid times the same way. */
  lemma TimeToWordsInjective(h1: int, m1: int, h2: int, m2: int)
    requires ValidTime(h1, m1) && ValidTime(h2, m2)
    requires TimeToWords(h1, m1) == TimeToWords(h2, m2)
    ensures h1 == h2 && m1 == m2
  {
    ReadTimeRoundTrip(h1, m1);
    ReadTimeRoundTrip(h2, m2);
  }

  // ---------------------------------------------------------------------
  // Facts about the readings of valid times

  /** An hour and the same hour twelve later read the same up to the marker: the hour word depends only on hour mod 12. */
  lemma HalfDaysShareWords(hour: int, minute: int)
    requires 0 <= hour < 12 && 0 <= minute < 60
    requires !(hour == 0 && minute == 0)
    ensures var am := TimeToWords(hour, minute);
      |am| >= 2 && TimeToWords(hour + 12, minute) == am[..|am| - 2] + "pm"
  {
    var am := TimeToWords(hour, minute);
    assert HourWord(hour) == HourWord(hour + 12) by {
      HourWordDefined(hour);
      HourWordDefined(hour + 12);
    }
    assert Stem(hour, minute) == Stem(hour + 12, minute);
    assert am == Stem(hour, minute) + " " + "am";
    assert am[..|am| - 2] == Stem(hour, minute) + " ";
  }

  /** A whole hour other than midnight and noon reads "<hour> o'clock am|pm". */
  lemma OClockShape(hour: int)
    requires 0 <= hour < 24 && hour != 0 && hour != 12
    ensures TimeToWords(hour, 0) == ClockNames[hour % 12] + " o'clock " + Suffix(hour)
  {
    StemWords(hour, 0);
  }

  /** Minutes 1..9 read "<hour> oh <digit> am|pm". */
  lemma OhShape(hour: int, minute: int)
    requires 0 <= hour < 24 && 1 <= minute <= 9
    ensures TimeToWords(hour, minute) == ClockNames[hour % 12] + " oh " + Units[minute] + " " + Suffix(hour)
  {
    HourWordDefined(hour);
    UnitName(minute);
  }

  /** Minutes 10..20 read as one table word. */
  lemma TableMinuteShape(hour: int, minute: int)
    requires 0 <= hour < 24 && 10 <= minute <= 20
    ensures Lookup(minute).Some?
    ensures TimeToWords(hour, minute) == ClockNames[hour % 12] + " " + Lookup(minute).value + " " + Suffix(hour)
  {
    HourWordDefined(hour);
    MinuteWordLow(minute);
  }

  /** Minutes 21..59 read as the tens word, then the ones word only when the ones digit is not zero. */
  lemma TensMinuteShape(hour: int, minute: int)
    requires 0 <= hour < 24 && 21 <= minute < 60
    ensures Lookup(minute / 10 * 10).Some? && (minute % 10 != 0 ==> Lookup(minute % 10).Some?)
    ensures minute % 10 == 0 ==>
      TimeToWords(hour, minute) == ClockNames[hour % 12] + " " + Lookup(minute / 10 * 10).value + " " + Suffix(hour)
    ensures minute % 10 != 0 ==>
      TimeToWords(hour, minute)
        == ClockNames[hour % 12] + " " + Lookup(minute / 10 * 10).value + " " + Lookup(minute % 10).value + " " + Suffix(hour)
  {
    HourWordDefined(hour);
    MinuteWordHigh(minute);
    if minute % 10 != 0 {
      Regroup(ClockNames[hour % 12], Lookup(minute / 10 * 10).value, Lookup(minute % 10).value);
    }
  }

  /** Regrouping a spaced concatenation. */
  lemma Regroup(a: string, b: string, c: string)
    ensures a + " " + (b + " " + c) == a + " " + b + " " + c
  {
  }

  /** The words of an ordinary reading are recovered by splitting, and none is "undefined". */
  lemma NoUndefinedOrdinary(hour: int, minute: int)
    requires ValidTime(hour, minute)
    requires !(minute == 0 && (hour == 0 || hour == 12))
    ensures "undefined" !in Text.Split(Text.Join(Words(hour, minute), " "), ' ')
  {
    var ws := Words(hour, minute);
    assert ws == [ClockNames[hour % 12]] + Middle(minute) + [Suffix(hour)];
    VocabularyNoSpace(hour, minute);
    Text.SplitJoin(ws, ' ');
    UndefinedNotAWord(hour, minute);
  }

  /** The reading of a valid time never contains the word "undefined": no table lookup misses. */
  lemma NoUndefinedWord(hour: int, minute: int)
    requires ValidTime(hour, minute)
    ensures "undefined" !in Text.Split(TimeToWords(hour, minute), ' ')
  {
    MatchesReference(hour, minute);
    if minute == 0 && hour == 0 {
      Text.SplitJoin(["midnight"], ' ');
    } else if minute == 0 && hour == 12 {
      Text.SplitJoin(["noon"], ' ');
    } else {
      NoUndefinedOrdinary(hour, minute);
    }
  }

  /** "undefined" is not in the vocabulary of an ordinary reading. */
  lemma UndefinedNotAWord(hour: int, minute: int)
    requires ValidTime(hour, minute)
    ensures "undefined" != ClockNames[hour % 12] && "undefined" != Suffix(hour) && "undefined" !in Middle(minute)
  {
    assert "undefined" !in ClockNames && "undefined" !in Units && "undefined" !in Tens;
  }

  /** Half past midnight reads with "twelve" and "am", as the hour 0 shares its word with noon. */
  lemma ExampleHalfPastMidnight()
    ensures TimeToWords(0, 30) == "twelve thirty am"
  {
    assert HourWord(0) == Some("twelve");
    assert MinuteWord(30) == Some("thirty");
    assert Stem(0, 30) == "twelve" + " " + "thirty";
  }

  /** Five past noon uses "oh" before the single digit and "pm". */
  lemma ExampleFivePastNoon()
    ensures TimeToWords(12, 5) == "twelve oh five pm"
  {
    assert HourWord(12) == Some("twelve");
    assert MinuteWord(5) == Some("five");
    assert Stem(12, 5) == "twelve" + " oh " + "five";
  }

  /** A minute with a zero ones digit reads as the tens word alone. */
  lemma ExampleTwoForty()
    ensures TimeToWords(14, 40) == "two forty pm"
  {
    assert HourWord(14) == Some("two");
    assert MinuteWord(40) == Some("forty");
    assert Stem(14, 40) == "two" + " " + "forty";
  }
}
