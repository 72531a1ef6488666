/**
 * `playlist_is_generated_by_this` and `get_range_array`: deciding whether a
 * listed playlist is one this tool generated, so that the cleanup flow
 * unfollows it. Names are JavaScript strings: their length and the
 * `substring` offsets count UTF-16 code units.
 *
 * `PlaylistIsGeneratedByThis` follows the code as written: `$.inArray`
 * returns an index or -1 and `&&` tests truthiness, so the test is
 * "neither index is 0", against the unpadded strings "1".."12" and
 * "2000".."2020". `PlaylistIsGeneratedByThisIntended` is the test the
 * source's comment describes: a zero-padded month "01".."12" and a year
 * "2000".."2020".
 */
module Classifier {
  import opened JsBuiltins
  import opened Spotify

  /** The JavaScript strings `i.toString()` for `i` from `first` to `last`, as `get_range_array` builds them. */
  function RangeArray(first: int, last: int): (r: seq<JsString>)
    ensures |r| == if first <= last then last - first + 1 else 0
    ensures forall k :: 0 <= k < |r| ==> (r[k] == Utf16(IntToString(first + k)))
    decreases last - first
  {
    if first > last then [] else RangeArray(first, last - 1) + [Utf16(IntToString(last))]
  }

  /** `get_range_array(from, to)`: the `for` loop pushing `i.toString()`. */
  method GetRangeArray(first: int, last: int) returns (arr: seq<JsString>)
    ensures arr == RangeArray(first, last)
  {
    arr := [];
    var i := first;
    while i <= last
      invariant first <= i <= if first <= last then last + 1 else first
      invariant arr == RangeArray(first, i - 1)
      decreases last - i
    {
      arr := arr + [Utf16(IntToString(i))];
      i := i + 1;
    }
  }

  /** A value is in the range exactly when it is the numeral of some integer of the range. */
  lemma InRangeArray(first: int, last: int, s: JsString)
    ensures s in RangeArray(first, last) <==> exists y :: first <= y <= last && s == Utf16(IntToString(y))
  {
    var r := RangeArray(first, last);
    if s in r {
      var k :| 0 <= k < |r| && r[k] == s;
      assert first <= first + k <= last && s == Utf16(IntToString(first + k));
    }
    if exists y :: first <= y <= last && s == Utf16(IntToString(y)) {
      var y :| first <= y <= last && s == Utf16(IntToString(y));
      assert r[y - first] == s;
    }
  }

  /** `$.inArray` gives 0, the one falsy index, exactly when the value is the first element. */
  lemma InArrayZero<T>(v: T, arr: seq<T>)
    ensures InArray(v, arr) == 0 <==> |arr| > 0 && arr[0] == v
  {
  }

  const SampleName: string := "01 2018"

  /** The lengths of the string literals the two tests measure. */
  lemma LiteralLengths()
    ensures |Utf16(SampleName)| == 7 && |Utf16("")| == 0 && |Utf16("01")| == 2
    ensures |Utf16("01 ")| == 3 && |Utf16("01 2016")| == 7
  {
    Utf16Narrow(SampleName);
    Utf16Narrow("01");
    Utf16Narrow("01 ");
    Utf16Narrow("01 2016");
  }

  /**
   * `playlist_is_generated_by_this(playlist)`, with the id `get_my_user_id`
   * reads from the page given as `myUserId`.
   */
  function PlaylistIsGeneratedByThis(playlist: Playlist, myUserId: string): (r: bool)
    ensures r ==> playlist.ownerId == myUserId && |playlist.name| == 7
  {
    LiteralLengths();
    if playlist.ownerId != myUserId then false
    else if |playlist.name| != |Utf16(SampleName)| then false
    else
      var years := RangeArray(2000, 2020);
      var months := RangeArray(1, 12);
      var playlistMonth := Substring(playlist.name, |Utf16("")|, |Utf16("01")|);
      var playlistYear := Substring(playlist.name, |Utf16("01 ")|, |Utf16("01 2016")|);
      InArray(playlistMonth, months) != 0 && InArray(playlistYear, years) != 0
  }

  lemma NumeralsOfFirstMonthAndYear()
    ensures IntToString(1) == "1"
    ensures IntToString(2000) == "2000"
  {
    assert NatToString(2000) == NatToString(200) + "0";
    assert NatToString(200) == NatToString(20) + "0";
    assert NatToString(20) == NatToString(2) + "0";
  }

  /**
   * What the test as written accepts: any name of the user's own playlists
   * that is 7 code units long and whose last four code units are not
   * "2000". The month test never fails (a 2-unit string is never "1", the
   * only element at index 0), and the year test fails only for "2000".
   */
  lemma {:induction false} AsWrittenAccepts(playlist: Playlist, myUserId: string)
    ensures PlaylistIsGeneratedByThis(playlist, myUserId) <==>
              playlist.ownerId == myUserId && |playlist.name| == 7 && playlist.name[3..7] != Utf16("2000")
  {
    LiteralLengths();
    NumeralsOfFirstMonthAndYear();
    Utf16Narrow("1");
    var name := playlist.name;
    if playlist.ownerId == myUserId && |name| == 7 {
      var month, year := Substring(name, 0, 2), Substring(name, 3, 7);
      assert month == name[0..2] && year == name[3..7];
      InArrayZero(month, RangeArray(1, 12));
      InArrayZero(year, RangeArray(2000, 2020));
      assert |month| == 2;
    }
  }

  /** The month numerals the generator's names start with for well-formed timestamps. */
  const MonthTokens: seq<string> := ["01", "02", "03", "04", "05", "06", "07", "08", "09", "10", "11", "12"]

  /** Every month token is two characters of the Basic Multilingual Plane. */
  lemma MonthTokensShape(i: nat)
    requires i < |MonthTokens|
    ensures |MonthTokens[i]| == 2 && Narrow(MonthTokens[i])
  {
  }

  /** The JavaScript strings of a list of texts. */
  function Utf16All(ss: seq<string>): (r: seq<JsString>)
    ensures |r| == |ss|
    ensures forall i :: 0 <= i < |ss| ==> r[i] == Utf16(ss[i])
  {
    if ss == [] then [] else Utf16All(ss[..|ss| - 1]) + [Utf16(ss[|ss| - 1])]
  }

  /** The test the source's comment describes: own playlist, "MM YYYY" with MM in "01".."12" and YYYY in "2000".."2020". */
  function PlaylistIsGeneratedByThisIntended(playlist: Playlist, myUserId: string): (r: bool)
    ensures r ==> playlist.ownerId == myUserId && |playlist.name| == 7
  {
    LiteralLengths();
    if playlist.ownerId != myUserId then false
    else if |playlist.name| != |Utf16(SampleName)| then false
    else
      var years := RangeArray(2000, 2020);
      var months := Utf16All(MonthTokens);
      var playlistMonth := Substring(playlist.name, |Utf16("")|, |Utf16("01")|);
      var playlistYear := Substring(playlist.name, |Utf16("01 ")|, |Utf16("01 2016")|);
      InArray(playlistMonth, months) != -1 && InArray(playlistYear, years) != -1
  }

  /** The corrected test in terms of membership: a 7-unit own name whose month and year strings are in the lists. */
  lemma IntendedMembership(playlist: Playlist, myUserId: string)
    ensures PlaylistIsGeneratedByThisIntended(playlist, myUserId) <==>
              playlist.ownerId == myUserId && |playlist.name| == 7 &&
              playlist.name[..2] in Utf16All(MonthTokens) && playlist.name[3..] in RangeArray(2000, 2020)
  {
    LiteralLengths();
    var name := playlist.name;
    if playlist.ownerId == myUserId && |name| == 7 {
      assert Substring(name, 0, 2) == name[..2] && Substring(name, 3, 7) == name[3..];
    }
  }

  /**
   * The corrected test accepts exactly the own playlists whose 7-unit name
   * is a month token, any one code unit, and the numeral of a year from
   * 2000 to 2020.
   */
  lemma IntendedAccepts(playlist: Playlist, myUserId: string)
    ensures PlaylistIsGeneratedByThisIntended(playlist, myUserId) <==>
              playlist.ownerId == myUserId && |playlist.name| == 7 &&
              playlist.name[..2] in Utf16All(MonthTokens) &&
              exists y :: 2000 <= y <= 2020 && playlist.name[3..] == Utf16(IntToString(y))
  {
    IntendedMembership(playlist, myUserId);
    if |playlist.name| >= 3 {
      InRangeArray(2000, 2020, playlist.name[3..]);
    }
  }

  /** A name built from a month token and a four-digit year is 7 code units, the parts at offsets 0 and 3. */
  lemma GeneratedNameShape(month: string, year: int)
    requires month in MonthTokens && 1000 <= year <= 9999
    ensures var name := Utf16(month) + Utf16(" ") + Utf16(IntToString(year));
            |name| == 7 && name[..2] == Utf16(month) && name[3..] == Utf16(IntToString(year))
  {
    var i :| 0 <= i < |MonthTokens| && MonthTokens[i] == month;
    MonthTokensShape(i);
    Utf16Narrow(month);
    Utf16Narrow(" ");
    FourDigitNumeral(year);
    NumeralNarrow(year);
    Utf16Narrow(IntToString(year));
  }

  /** The string of a month token is among the corrected test's months. */
  lemma MonthTokenListed(month: string)
    requires month in MonthTokens
    ensures Utf16(month) in Utf16All(MonthTokens)
  {
    var i :| 0 <= i < |MonthTokens| && MonthTokens[i] == month;
    assert Utf16All(MonthTokens)[i] == Utf16(month);
  }

  /** The string of a year from 2000 to 2020 is among the years. */
  lemma YearListed(year: int)
    requires 2000 <= year <= 2020
    ensures Utf16(IntToString(year)) in RangeArray(2000, 2020)
  {
    assert RangeArray(2000, 2020)[year - 2000] == Utf16(IntToString(year));
  }

  /** Every name "MM YYYY" built from a month token and a year from 2000 to 2020 is recognised. */
  lemma IntendedRecognisesGeneratedNames(id: string, month: string, year: int, myUserId: string)
    requires month in MonthTokens && 2000 <= year <= 2020
    ensures PlaylistIsGeneratedByThisIntended(
              Playlist(id, Utf16(month) + Utf16(" ") + Utf16(IntToString(year)), myUserId), myUserId)
  {
    GeneratedNameShape(month, year);
    MonthTokenListed(month);
    YearListed(year);
    IntendedMembership(Playlist(id, Utf16(month) + Utf16(" ") + Utf16(IntToString(year)), myUserId), myUserId);
  }

  lemma NumeralsOf2017()
    ensures IntToString(2017) == "2017"
  {
    assert NatToString(2017) == NatToString(201) + "7";
    assert NatToString(201) == NatToString(20) + "1";
    assert NatToString(20) == NatToString(2) + "0";
  }

  /** The JavaScript string of a name "MM YYYY" is the strings of its parts, joined. */
  lemma NameParts(month: string, year: string)
    ensures Utf16(month + " " + year) == Utf16(month) + Utf16(" ") + Utf16(year)
  {
    Utf16Concat(month + " ", year);
    Utf16Concat(month, " ");
  }

  /** "07 2017" is the name built for month "07" of 2017. */
  lemma NameOfJuly2017()
    ensures Utf16("07 2017") == Utf16("07") + Utf16(" ") + Utf16(IntToString(2017))
  {
    NumeralsOf2017();
    assert "07 2017" == "07" + " " + "2017";
    NameParts("07", "2017");
  }

  /** "07 2017", the user's own, is recognised. */
  lemma IntendedAcceptsJuly2017(playlist: Playlist, me: string)
    requires playlist.ownerId == me && playlist.name == Utf16("07 2017")
    ensures PlaylistIsGeneratedByThisIntended(playlist, me)
  {
    NameOfJuly2017();
    IntendedRecognisesGeneratedNames(playlist.id, "07", 2017, me);
  }

  /** "01 2000" is the name built for month "01" of 2000. */
  lemma NameOfJanuary2000()
    ensures Utf16("01 2000") == Utf16("01") + Utf16(" ") + Utf16(IntToString(2000))
  {
    NumeralsOfFirstMonthAndYear();
    assert "01 2000" == "01" + " " + "2000";
    NameParts("01", "2000");
  }

  /** "01 2000", the name generated for January 2000, is recognised. */
  lemma IntendedAcceptsJanuary2000(playlist: Playlist, me: string)
    requires playlist.ownerId == me && playlist.name == Utf16("01 2000")
    ensures PlaylistIsGeneratedByThisIntended(playlist, me)
  {
    NameOfJanuary2000();
    IntendedRecognisesGeneratedNames(playlist.id, "01", 2000, me);
  }

  /** A name that does not start with a month token is not recognised. */
  lemma IntendedRejectsOtherMonths(playlist: Playlist, me: string)
    requires |playlist.name| >= 2 && playlist.name[..2] !in Utf16All(MonthTokens)
    ensures !PlaylistIsGeneratedByThisIntended(playlist, me)
  {
    IntendedAccepts(playlist, me);
  }

  /** "13 2017" starts with "13", which is no month token. */
  lemma Month13NotListed()
    ensures |Utf16("13 2017")| >= 2 && Utf16("13 2017")[..2] == Utf16("13")
    ensures Utf16("13") !in Utf16All(MonthTokens)
  {
    assert "13 2017" == "13" + " 2017";
    Utf16Concat("13", " 2017");
    Utf16Narrow("13");
    forall i | 0 <= i < |MonthTokens| ensures Utf16All(MonthTokens)[i] != Utf16("13") {
      MonthTokensShape(i);
      if Utf16(MonthTokens[i]) == Utf16("13") {
        Utf16NarrowInjective(MonthTokens[i], "13");
      }
    }
  }

  /** "13 2017" is not recognised: 13 is no month. */
  lemma IntendedRejectsMonth13(playlist: Playlist, me: string)
    requires playlist.ownerId == me && playlist.name == Utf16("13 2017")
    ensures !PlaylistIsGeneratedByThisIntended(playlist, me)
  {
    Month13NotListed();
    IntendedRejectsOtherMonths(playlist, me);
  }

  /** Another user's playlist is never recognised, whatever its name. */
  lemma IntendedRejectsOtherOwner(playlist: Playlist, me: string)
    requires playlist.ownerId != me
    ensures !PlaylistIsGeneratedByThisIntended(playlist, me)
  {
  }

  /** The emoji U+1F600 is one surrogate pair. */
  lemma EmojiUnits()
    ensures Utf16("\U{1F600}") == [0xD83D as CodeUnit, 0xDE00 as CodeUnit]
  {
    assert "\U{1F600}"[..0] == [];
    assert Utf16("\U{1F600}") == Utf16("") + CodeUnitsOf('\U{1F600}');
  }

  /** "01😀2018" is 8 code units long, the emoji being a surrogate pair. */
  lemma EightUnitName()
    ensures |Utf16("01\U{1F600}2018")| == 8
  {
    assert "01\U{1F600}2018" == "01" + "\U{1F600}" + "2018";
    Utf16Concat("01" + "\U{1F600}", "2018");
    Utf16Concat("01", "\U{1F600}");
    assert |Utf16("01")| == 2 by { Utf16Narrow("01"); }
    assert |Utf16("2018")| == 4 by { Utf16Narrow("2018"); }
    EmojiUnits();
  }

  /** A name of a length other than 7 code units is never recognised, so "01😀2018" is not. */
  lemma IntendedRejectsEightUnitName(playlist: Playlist, me: string)
    requires playlist.name == Utf16("01\U{1F600}2018")
    ensures |playlist.name| == 8
    ensures !PlaylistIsGeneratedByThisIntended(playlist, me)
  {
    EightUnitName();
  }

  /** "13 2017" is 7 code units and does not end in "2000". */
  lemma Month13EndsOtherwise()
    ensures |Utf16("13 2017")| == 7 && Utf16("13 2017")[3..7] != Utf16("2000")
  {
    var name := Utf16("13 2017");
    Utf16Narrow("13 2017");
    Utf16Narrow("2000");
    assert name[5] as int == '1' as int;
    assert Utf16("2000")[2] as int == '0' as int;
    assert name[3..7][2] == name[5];
  }

  /** As written, "13 2017" is accepted though 13 is no month. */
  lemma AsWrittenAcceptsMonth13(playlist: Playlist, me: string)
    requires playlist.ownerId == me && playlist.name == Utf16("13 2017")
    ensures PlaylistIsGeneratedByThis(playlist, me)
  {
    Month13EndsOtherwise();
    AsWrittenAccepts(playlist, me);
  }

  /** "01 2000" is 7 code units and ends in "2000". */
  lemma January2000EndsIn2000()
    ensures |Utf16("01 2000")| == 7 && Utf16("01 2000")[3..7] == Utf16("2000")
  {
    assert "01 2000" == "01 " + "2000";
    Utf16Concat("01 ", "2000");
    Utf16Narrow("01 ");
    Utf16Narrow("2000");
  }

  /** As written, "01 2000", the name generated for January 2000, is rejected. */
  lemma AsWrittenRejectsJanuary2000(playlist: Playlist, me: string)
    requires playlist.ownerId == me && playlist.name == Utf16("01 2000")
    ensures !PlaylistIsGeneratedByThis(playlist, me)
  {
    January2000EndsIn2000();
    AsWrittenAccepts(playlist, me);
  }

  /**
   * As written, an own playlist "Chill😀" is accepted: the emoji is a
   * surrogate pair, so the name is 7 code units long, and neither index is 0.
   */
  lemma AsWrittenAcceptsChillEmoji(playlist: Playlist, me: string)
    requires playlist.ownerId == me && playlist.name == Utf16("Chill\U{1F600}")
    ensures |playlist.name| == 7
    ensures PlaylistIsGeneratedByThis(playlist, me)
  {
    ChillEmojiName();
    AsWrittenAccepts(playlist, me);
  }

  /** "Chill😀" is 7 code units, and its last four are not "2000". */
  lemma ChillEmojiName()
    ensures |Utf16("Chill\U{1F600}")| == 7 && Utf16("Chill\U{1F600}")[3..7] != Utf16("2000")
  {
    var name := Utf16("Chill\U{1F600}");
    assert name == Utf16("Chill") + CodeUnitsOf('\U{1F600}') by {
      assert "Chill\U{1F600}"[..5] == "Chill";
    }
    Utf16Narrow("Chill");
    Utf16Narrow("2000");
    assert name[3] as int == 'l' as int;
    assert Utf16("2000")[0] as int == '2' as int;
    assert name[3..7][0] == name[3];
  }

  /** "Workout" is 7 code units, and its last four are not "2000". */
  lemma WorkoutName()
    ensures |Utf16("Workout")| == 7 && Utf16("Workout")[3..7] != Utf16("2000")
  {
    var name := Utf16("Workout");
    Utf16Narrow("Workout");
    Utf16Narrow("2000");
    assert name[3] as int == 'k' as int;
    assert Utf16("2000")[0] as int == '2' as int;
    assert name[3..7][0] == name[3];
  }

  /**
   * As written, an own playlist "Workout", which the generator never names,
   * is accepted: any 7-code-unit name not ending in "2000" passes.
   */
  lemma AsWrittenAcceptsWorkout(playlist: Playlist, me: string)
    requires playlist.ownerId == me && playlist.name == Utf16("Workout")
    ensures PlaylistIsGeneratedByThis(playlist, me)
  {
    WorkoutName();
    AsWrittenAccepts(playlist, me);
  }
}
