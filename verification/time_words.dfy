/** The time-to-words translator of the word clock: from an hour and a minute to the
    list of words to light, and the hour normalization done before it is called. */
module TimeWords {
  import opened WordGrid

  /** What the translator returns: the words, or the failed hour-name lookup
      (Python's KeyError, carrying the missing key). */
  datatype Result = Ok(words: seq<string>) | KeyError(key: int)

  /** One entry of the minute table: the minutes in range(lo, hi) are said with these words. */
  datatype Bucket = Bucket(lo: int, hi: int, words: seq<string>)

  /** The words lit exactly on the hour, before the hour name. */
  const OnTheHour: seq<string> := ["IT", "IS", "OCLOCK"]

  /** The minute table, in the order the translator scans it. */
  const MinuteWordMap: seq<Bucket> := [
    Bucket(0, 5, ["OCLOCK"]),
    Bucket(5, 10, ["FIVE", "PAST"]),
    Bucket(10, 15, ["TEN", "PAST"]),
    Bucket(15, 20, ["QUARTER", "PAST"]),
    Bucket(20, 25, ["TWENTY", "PAST"]),
    Bucket(25, 30, ["TWENTY", "FIVE", "PAST"]),
    Bucket(30, 35, ["HALF", "PAST"]),
    Bucket(35, 40, ["TWENTY", "FIVE", "TO"]),
    Bucket(40, 45, ["TWENTY", "TO"]),
    Bucket(45, 50, ["QUARTER", "TO"]),
    Bucket(50, 55, ["TEN", "TO"]),
    Bucket(55, 60, ["FIVE", "TO"])
  ]

  /** The names of the hours; keyed 1 to 12 only. */
  const HourWordMap: map<int, string> := map[
    1 := "ONE", 2 := "TWO", 3 := "THREE", 4 := "FOUR", 5 := "FIVE",
    6 := "SIX", 7 := "SEVEN", 8 := "EIGHT", 9 := "NINE", 10 := "TEN",
    11 := "ELEVEN", 12 := "TWELVE"
  ]

  /** The words said before the hour name: the on-the-hour words at minute 0, the phrase
      of the minute's five-minute bucket (found directly as minute / 5) for minutes 1 to 59,
      and nothing for a minute outside every bucket. */
  function Phrase(minute: int): seq<string> {
    if minute == 0 then OnTheHour
    else if 0 < minute < 60 then MinuteWordMap[minute / 5].words
    else []
  }

  /** The hour whose name is said: the next hour (on a 12-hour face) when the phrase says
      "TO", else the hour as given; 0 is read as 12. */
  function EffectiveHour(hour: int, phrase: seq<string>): int {
    var h := if "TO" in phrase then hour % 12 + 1 else hour;
    if h == 0 then 12 else h
  }

  /** Reference definition of the translator: the phrase, followed by the hour name
      unless that name is already among the phrase's words. */
  function TimeRepresentation(hour: int, minute: int): Result {
    var phrase := Phrase(minute);
    var h := EffectiveHour(hour, phrase);
    if h !in HourWordMap then KeyError(h)
    else if HourWordMap[h] in phrase then Ok(phrase)
    else Ok(phrase + [HourWordMap[h]])
  }

  /** The translator as written: seed the on-the-hour words, scan the minute table in order
      for the bucket holding the minute, let that bucket's phrase replace the words unless
      the minute is 0, then look the hour name up and append it if it is not there yet. */
  method GetTimeRepresentation(hour: int, minute: int) returns (r: Result)
    ensures r == TimeRepresentation(hour, minute)
  {
    var words: seq<string> := [];
    if minute == 0 {
      words := words + OnTheHour;
    }
    var k := 0;
    while k < |MinuteWordMap|
      invariant 0 <= k <= |MinuteWordMap|
      invariant forall j :: 0 <= j < k ==> !(MinuteWordMap[j].lo <= minute < MinuteWordMap[j].hi)
      invariant words == if minute == 0 then OnTheHour else []
    {
      var bucket := MinuteWordMap[k];
      if bucket.lo <= minute < bucket.hi {
        if minute != 0 {
          BucketOf(minute, k);
          words := bucket.words;
        }
        break;
      }
      k := k + 1;
    }
    if k == |MinuteWordMap| {
      BucketBounds();
    }
    var next := if "TO" in words then hour % 12 + 1 else hour;
    if next == 0 {
      next := 12;
    }
    if next !in HourWordMap {
      return KeyError(next);
    }
    if HourWordMap[next] !in words {
      words := words + [HourWordMap[next]];
    }
    r := Ok(words);
  }

  /** Bucket j of the minute table covers exactly the minutes 5j to 5j + 4. */
  lemma BucketBounds()
    ensures |MinuteWordMap| == 12
    ensures forall j :: 0 <= j < 12 ==> MinuteWordMap[j].lo == 5 * j && MinuteWordMap[j].hi == 5 * j + 5
  {
  }

  /** A minute lies in bucket k exactly when it is one of 0 to 59 and k is minute / 5. */
  lemma BucketOf(minute: int, k: int)
    requires 0 <= k < |MinuteWordMap|
    ensures (MinuteWordMap[k].lo <= minute < MinuteWordMap[k].hi) <==> (0 <= minute < 60 && k == minute / 5)
  {
    BucketBounds();
  }

  /** The hour as the clock normalizes it before translating: hour mod 12, with 0 read
      as 12, so every hour lands on the face's 1 to 12 and keeps its place mod 12. */
  function NormalizeHour(hour: int): (h: int)
    ensures 1 <= h <= 12
    ensures h % 12 == hour % 12
    ensures h == 12 <==> hour % 12 == 0
  {
    var h := hour % 12;
    if h == 0 then 12 else h
  }

  /** On the hour (hour 0 to 12) the words are IT IS OCLOCK and the hour's own name:
      four words, the "TO" rule never applying. */
  lemma OnTheHourWords(hour: int)
    requires 0 <= hour <= 12
    ensures TimeRepresentation(hour, 0) == Ok(OnTheHour + [HourWordMap[NormalizeHour(hour)]])
    ensures |TimeRepresentation(hour, 0).words| == 4
  {
    var h := NormalizeHour(hour);
    assert h in HourWordMap;
    assert HourWordMap[h] !in OnTheHour;
  }

  /** Exactly the buckets from minute 35 on say "TO". */
  lemma ToBuckets(minute: int)
    requires 0 <= minute < 60
    ensures "TO" in Phrase(minute) <==> 35 <= minute
  {
    BucketBounds();
    var j := minute / 5;
    assert 0 <= j < 12;
  }

  /** For minutes 1 to 59 the words begin with the minute bucket's phrase (OCLOCK alone
      for minutes 1 to 4), and never hold the on-the-hour IT or IS: the bucket's phrase
      replaces the seed instead of being added to it. */
  lemma MinutePhraseLeads(hour: int, minute: int)
    requires 1 <= minute <= 59
    requires TimeRepresentation(hour, minute).Ok?
    ensures var ws := TimeRepresentation(hour, minute).words;
      var phrase := MinuteWordMap[minute / 5].words;
      |phrase| <= |ws| && ws[..|phrase|] == phrase
    ensures minute < 5 ==> TimeRepresentation(hour, minute).words[..1] == ["OCLOCK"]
    ensures "IT" !in TimeRepresentation(hour, minute).words
    ensures "IS" !in TimeRepresentation(hour, minute).words
  {
    BucketBounds();
    var j := minute / 5;
    assert 0 <= j < 12;
    var phrase := Phrase(minute);
    assert phrase == MinuteWordMap[j].words;
    var h := EffectiveHour(hour, phrase);
    var ws := TimeRepresentation(hour, minute).words;
    assert ws == phrase || ws == phrase + [HourWordMap[h]];
    assert ws[..|phrase|] == phrase;
    NoSeedWords(j, h);
  }

  /** IT and IS belong to no minute phrase and name no hour. */
  lemma NoSeedWords(j: int, h: int)
    requires 0 <= j < |MinuteWordMap| && h in HourWordMap
    ensures "IT" !in MinuteWordMap[j].words && "IS" !in MinuteWordMap[j].words
    ensures HourWordMap[h] != "IT" && HourWordMap[h] != "IS"
  {
  }

  /** For hours 0 to 12 and minutes 0 to 59 the translation succeeds and names the next
      hour exactly when the minute is 35 or more, the hour itself otherwise. */
  lemma ToRule(hour: int, minute: int)
    requires 0 <= hour <= 12 && 0 <= minute <= 59
    ensures TimeRepresentation(hour, minute).Ok?
    ensures EffectiveHour(hour, Phrase(minute)) ==
      if 35 <= minute then hour % 12 + 1 else NormalizeHour(hour)
    ensures HourWordMap[EffectiveHour(hour, Phrase(minute))] in TimeRepresentation(hour, minute).words
  {
    ToBuckets(minute);
  }

  /** The words never name the same token twice: every bucket's phrase is free of repeats
      and the hour name is only appended when it is absent. */
  lemma NoDuplicateWords(hour: int, minute: int)
    requires TimeRepresentation(hour, minute).Ok?
    ensures var ws := TimeRepresentation(hour, minute).words;
      forall i, j :: 0 <= i < j < |ws| ==> ws[i] != ws[j]
  {
    BucketBounds();
    var phrase := Phrase(minute);
    assert forall i, j :: 0 <= i < j < |phrase| ==> phrase[i] != phrase[j] by {
      if 0 < minute < 60 {
        var b := minute / 5;
        assert 0 <= b < 12;
      }
    }
  }

  /** For hours 0 to 12 and minutes 0 to 59 the translation succeeds with two to four
      words, and every word has an entry in the table of positions. */
  lemma WordsOnFace(hour: int, minute: int)
    requires 0 <= hour <= 12 && 0 <= minute <= 59
    ensures TimeRepresentation(hour, minute).Ok?
    ensures 2 <= |TimeRepresentation(hour, minute).words| <= 4
    ensures forall w :: w in TimeRepresentation(hour, minute).words ==> w in WordPositions
  {
    BucketBounds();
    ToBuckets(minute);
    PhraseOnFace(minute);
    var h := EffectiveHour(hour, Phrase(minute));
    assert h in HourWordMap && HourWordMap[h] in WordPositions;
    if minute != 0 {
      var b := minute / 5;
      assert 0 <= b < 12;
    }
  }

  /** An hour of 13 to 23 passed on without normalization fails the hour-name lookup for
      every minute below 35, and only then: from minute 35 the "TO" rule wraps it. */
  lemma UnnormalizedHour(hour: int, minute: int)
    requires 13 <= hour <= 23 && 0 <= minute <= 59
    ensures minute < 35 ==> TimeRepresentation(hour, minute) == KeyError(hour)
    ensures 35 <= minute ==> TimeRepresentation(hour, minute).Ok?
  {
    ToBuckets(minute);
  }

  /** Once the hour is normalized the translation never fails, whatever the minute, and an
      hour and the same hour twelve later give the same words. */
  lemma NormalizedNeverFails(hour: int, minute: int)
    ensures TimeRepresentation(NormalizeHour(hour), minute).Ok?
    ensures forall w :: w in TimeRepresentation(NormalizeHour(hour), minute).words ==> w in WordPositions
    ensures TimeRepresentation(NormalizeHour(hour + 12), minute) ==
            TimeRepresentation(NormalizeHour(hour), minute)
  {
    PhraseOnFace(minute);
    var h := EffectiveHour(NormalizeHour(hour), Phrase(minute));
    assert h in HourWordMap && HourWordMap[h] in WordPositions;
  }

  /** Every word of every phrase has an entry in the table of positions. */
  lemma PhraseOnFace(minute: int)
    ensures forall w :: w in Phrase(minute) ==> w in WordPositions
  {
    if 0 < minute < 60 {
      BucketBounds();
      var b := minute / 5;
      assert 0 <= b < 12;
    }
  }

  /** The translator's words for the times the tests pass to it unnormalized, as the code
      computes them. 23:59, 17:55 and 3:00 come out as the tests expect; FIVE TO at 4:55
      and FIVE PAST at 5:05 carry no second FIVE, the hour name being skipped as a repeat;
      hours 14 and 15 below minute 35 fail the lookup, and so does 14 with a minute outside
      every bucket. */
  lemma Examples()
    ensures TimeRepresentation(3, 0) == Ok(["IT", "IS", "OCLOCK", "THREE"])
    ensures TimeRepresentation(23, 59) == Ok(["FIVE", "TO", "TWELVE"])
    ensures TimeRepresentation(17, 55) == Ok(["FIVE", "TO", "SIX"])
    ensures TimeRepresentation(4, 55) == Ok(["FIVE", "TO"])
    ensures TimeRepresentation(5, 5) == Ok(["FIVE", "PAST"])
    ensures TimeRepresentation(14, 25) == KeyError(14)
    ensures TimeRepresentation(15, 0) == KeyError(15)
    ensures TimeRepresentation(14, 75) == KeyError(14)
    ensures TimeRepresentation(3, 75) == Ok(["THREE"])
  {
  }

  /** The words once the hour is normalized, as the tick computes them: 15:00 reads as
      3:00, and 13:15 and 14:25 succeed. */
  lemma NormalizedExamples()
    ensures TimeRepresentation(NormalizeHour(15), 0) == Ok(["IT", "IS", "OCLOCK", "THREE"])
    ensures TimeRepresentation(NormalizeHour(23), 59) == Ok(["FIVE", "TO", "TWELVE"])
    ensures TimeRepresentation(NormalizeHour(17), 55) == Ok(["FIVE", "TO", "SIX"])
    ensures TimeRepresentation(NormalizeHour(13), 15) == Ok(["QUARTER", "PAST", "ONE"])
    ensures TimeRepresentation(NormalizeHour(14), 25) == Ok(["TWENTY", "FIVE", "PAST", "TWO"])
  {
  }
}
