/** The job-post card (src/components/PostCard.tsx): the deadline message
    for a whole-day difference and the bookmark icon chosen by the post's
    bookmark flag. */
module PostCard {
  import opened Text

  const REMAINING_PREFIX := "마감까지 D-"
  const DUE_TODAY := "오늘 마감!"
  const CLOSED := "마감"
  const ICON_PREFIX := "../../public/bookmark_"
  const ICON_SUFFIX := ".svg"

  /** `getDDayMessage` for the day difference `dDay`: a positive number of
      days reads `마감까지 D-` followed by that number, zero reads
      `오늘 마감!` and a past deadline reads `마감`. */
  function DDayMessage(dDay: int): (message: string)
    ensures dDay > 0 ==>
      (REMAINING_PREFIX <= message && IsDigits(message[|REMAINING_PREFIX|..])
       && message[|REMAINING_PREFIX|..] == NatToDecimal(dDay))
    ensures dDay == 0 ==> message == DUE_TODAY
    ensures dDay < 0 ==> message == CLOSED
  {
    if dDay > 0 then
      var message := REMAINING_PREFIX + IntToString(dDay);
      assert message[|REMAINING_PREFIX|..] == IntToString(dDay);
      message
    else if dDay == 0 then DUE_TODAY
    else CLOSED
  }

  /** Exactly one branch applies: the message says closed exactly for a
      negative difference, due today exactly for zero, and otherwise shows
      a number of days that reads back as the difference. */
  lemma DDayMessageBranches(dDay: int)
    ensures DDayMessage(dDay) == CLOSED <==> dDay < 0
    ensures DDayMessage(dDay) == DUE_TODAY <==> dDay == 0
    ensures REMAINING_PREFIX <= DDayMessage(dDay) <==> dDay > 0
    ensures dDay > 0 ==> DecimalValue(DDayMessage(dDay)[|REMAINING_PREFIX|..]) == dDay
  {
    var m := DDayMessage(dDay);
    if dDay > 0 {
      assert |m| > |CLOSED| && |m| > |DUE_TODAY|;
    }
  }

  /** Two different positive day differences give different messages. */
  lemma DDayMessageInjective(a: int, b: int)
    requires a > 0 && b > 0 && DDayMessage(a) == DDayMessage(b)
    ensures a == b
  {
    DDayMessageBranches(a);
    DDayMessageBranches(b);
  }

  /** The bookmark icon: `../../public/bookmark_on.svg` for a bookmarked
      post, `../../public/bookmark_off.svg` otherwise. */
  function BookmarkIcon(isBookmarked: bool): (path: string)
    ensures ICON_PREFIX <= path && EndsWith(path, ICON_SUFFIX)
    ensures |ICON_PREFIX| + |ICON_SUFFIX| < |path|
    ensures path[|ICON_PREFIX|..|path| - |ICON_SUFFIX|] == if isBookmarked then "on" else "off"
  {
    var status := if isBookmarked then "on" else "off";
    var path := ICON_PREFIX + status + ICON_SUFFIX;
    assert path[|ICON_PREFIX|..|path| - |ICON_SUFFIX|] == status;
    assert path[|path| - |ICON_SUFFIX|..] == ICON_SUFFIX;
    path
  }

  /** The icon tells the two states apart. */
  lemma BookmarkIconInjective(a: bool, b: bool)
    ensures BookmarkIcon(a) == BookmarkIcon(b) <==> a == b
  {
    if BookmarkIcon(a) == BookmarkIcon(b) {
      var p := BookmarkIcon(a);
      assert p[|ICON_PREFIX|..|p| - |ICON_SUFFIX|] == if a then "on" else "off";
    }
  }
}
