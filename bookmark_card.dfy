/** The bookmarked-post card (src/components/BookmarkCard.tsx): the
    deadline message and its colour, the Korean name of a position type,
    and the bookmark button, which removes or re-adds the bookmark. */
module BookmarkCard {
  import opened Results
  import opened Types
  import opened Text

  const ALWAYS_OPEN := "상시모집"
  const CLOSED := "마감"
  const D_DAY := "D-Day"
  const D_PREFIX := "D-"
  const CLOSED_COLOUR := "#ff0000"
  const OPEN_COLOUR := "#2343ce"
  const UNKNOWN_POSITION := "Unknown position type"
  const NO_TOKEN := "Token does not exist!"

  /** The outcome of comparing the end date with now: past it, or the
      whole-day difference between the two dates. */
  datatype Deadline = Passed | Remaining(diffDays: int)

  /** `getDDayMessage`, with the end date already compared with today
      (`None` is a missing or empty end date). */
  function DDayMessage(deadline: Option<Deadline>): (message: string)
    ensures deadline == None ==> message == ALWAYS_OPEN
    ensures deadline == Some(Passed) ==> message == CLOSED
    ensures deadline == Some(Remaining(0)) ==> message == D_DAY
    ensures deadline.Some? && deadline.value.Remaining? && deadline.value.diffDays != 0 ==>
      (D_PREFIX <= message && message[|D_PREFIX|..] == IntToString(deadline.value.diffDays))
  {
    match deadline
    case None => ALWAYS_OPEN
    case Some(Passed) => CLOSED
    case Some(Remaining(d)) =>
      if d == 0 then D_DAY
      else
        var message := D_PREFIX + IntToString(d);
        assert message[|D_PREFIX|..] == IntToString(d);
        message
  }

  /** `getDDayColour`: red exactly for the closed message, blue otherwise. */
  function DDayColour(message: string): (colour: string)
    ensures colour == CLOSED_COLOUR <==> message == CLOSED
    ensures colour == OPEN_COLOUR <==> message != CLOSED
  {
    if message == CLOSED then CLOSED_COLOUR else OPEN_COLOUR
  }

  /** The card is red exactly when the deadline has passed. */
  lemma ColourShowsPassedDeadline(deadline: Option<Deadline>)
    ensures DDayColour(DDayMessage(deadline)) == CLOSED_COLOUR <==> deadline == Some(Passed)
  {
    var m := DDayMessage(deadline);
    if deadline.Some? && deadline.value.Remaining? && deadline.value.diffDays != 0 {
      assert m[0] == 'D';
    }
  }

  /** `positionToKorean`: each of the eight position types has its Korean
      name; anything else throws. */
  function PositionToKorean(positionType: PositionType): (r: Result<string, string>)
    ensures r.Success? <==> positionType in POSITION_TYPES
    ensures r.Failure? ==> r.error == UNKNOWN_POSITION
    ensures r.Success? ==> r.value != ""
  {
    match positionType
    case "FRONT" => Success("프론트엔드 개발자")
    case "APP" => Success("앱 개발자")
    case "BACKEND" => Success("서버·백엔드 개발자")
    case "DATA" => Success("데이터 개발자")
    case "OTHERS" => Success("기타 개발자")
    case "DESIGN" => Success("디자이너")
    case "PLANNER" => Success("기획자")
    case "MARKETING" => Success("마케터")
    case _ => Failure(UNKNOWN_POSITION)
  }

  /** Different position types get different names. */
  lemma PositionToKoreanInjective(a: PositionType, b: PositionType)
    requires a in POSITION_TYPES && b in POSITION_TYPES
    requires PositionToKorean(a) == PositionToKorean(b)
    ensures a == b
  {
  }

  /** `getBookmarkSource`: `/bookmark_on.svg` when bookmarked, otherwise
      `/bookmark_off.svg`. */
  function BookmarkSource(isBookmarked: bool): (path: string)
    ensures isBookmarked <==> path == "/bookmark_on.svg"
    ensures !isBookmarked <==> path == "/bookmark_off.svg"
  {
    "/bookmark_" + (if isBookmarked then "on" else "off") + ".svg"
  }

  /** A call made on the server when the button is clicked. */
  datatype BookmarkRequest =
    | AddBookmark(postId: string, token: string)
    | RemoveBookmark(postId: string, token: string)

  class BookmarkCardState {
    const postId: string
    var isBookmarked: bool
    var bookmarkSource: string
    /** The requests sent so far, oldest first. */
    var requests: seq<BookmarkRequest>

    /** The effect on `isBookmarked` keeps the icon in step with it. */
    predicate Valid()
      reads this
    {
      bookmarkSource == BookmarkSource(isBookmarked)
    }

    /** The card starts bookmarked: it lists bookmarked posts. */
    constructor (postId: string)
      ensures Valid() && this.postId == postId
      ensures isBookmarked && bookmarkSource == "/bookmark_on.svg" && requests == []
    {
      this.postId := postId;
      isBookmarked := true;
      bookmarkSource := "/bookmark_on.svg";
      requests := [];
    }

    /** `handleBookmarkClick` followed by the icon effect, given the token
      cookie. Without a token it throws and nothing changes; with one it
      sends the removal or the addition and flips the flag. */
    method Click(token: Option<string>) returns (error: Option<string>)
      requires Valid()
      modifies this`isBookmarked, this`bookmarkSource, this`requests
      ensures Valid()
      ensures error.Some? <==> !PresentText(token)
      ensures error.Some? ==> error.value == NO_TOKEN && unchanged(this)
      ensures error.None? ==> isBookmarked == !old(isBookmarked)
      ensures error.None? && old(isBookmarked) ==> requests == old(requests) + [RemoveBookmark(postId, token.value)]
      ensures error.None? && !old(isBookmarked) ==> requests == old(requests) + [AddBookmark(postId, token.value)]
    {
      if !PresentText(token) {
        return Some(NO_TOKEN);
      }
      if isBookmarked {
        requests := requests + [RemoveBookmark(postId, token.value)];
        isBookmarked := false;
      } else {
        requests := requests + [AddBookmark(postId, token.value)];
        isBookmarked := true;
      }
      bookmarkSource := BookmarkSource(isBookmarked);
      error := None;
    }
  }
}
