/** The textual names of colours and moves used by the command-line front
    end: `next_color_to_human_string`, `human_string_to_next_color`,
    `to_string(PlayerMove)` and `player_move_from_string`. */
module Names {
  import opened Cards
  import opened Boards

  datatype ParseError = InvalidColor | BadPlayersMove

  /** `next_color_to_human_string`. */
  function ColorName(nc: NextColor): (r: string)
    ensures |r| > 0
  {
    match nc
    case Blue => "blue"
    case Red => "red"
    case White => "white"
  }

  /** `human_string_to_next_color` as written: the input is compared as it
      was given, so only the three lower-case names are accepted. */
  function ParseColor(str: string): (r: Result<NextColor, ParseError>)
    ensures r.Ok? ==> ColorName(r.value) == str
    ensures r.Err? ==> r.error == InvalidColor
  {
    if str == "blue" then Ok(Blue)
    else if str == "red" then Ok(Red)
    else if str == "white" then Ok(White)
    else Err(InvalidColor)
  }

  /** Parsing accepts exactly the names of the colours, and inverts
      `ColorName`. */
  lemma ParseColorIff(str: string)
    ensures ParseColor(str).Ok? <==> exists nc :: ColorName(nc) == str
    ensures forall nc :: ParseColor(ColorName(nc)) == Ok(nc)
  {
    forall nc ensures ParseColor(ColorName(nc)) == Ok(nc) {
      match nc
      case Blue =>
      case Red =>
      case White =>
        assert "white" != "blue" && "white" != "red";
    }
  }

  /** `std::tolower` in the C locale. */
  function LowerChar(c: char): char
  {
    if 'A' <= c <= 'Z' then (c as int + 32) as char else c
  }

  /** `lower_string`. */
  function Lower(s: string): (r: string)
    ensures |r| == |s| && forall i | 0 <= i < |s| :: r[i] == LowerChar(s[i])
  {
    seq(|s|, i requires 0 <= i < |s| => LowerChar(s[i]))
  }

  /** `std::isspace` in the C locale. */
  predicate IsSpace(c: char)
  {
    c == ' ' || c == '\t' || c == '\n' || c == '\r' || c == '\U{B}' || c == '\U{C}'
  }

  predicate AllSpace(s: string)
  {
    forall i | 0 <= i < |s| :: IsSpace(s[i])
  }

  function StripLeading(s: string): (r: string)
    ensures |r| <= |s| && s[|s| - |r|..] == r
    ensures |r| > 0 ==> !IsSpace(r[0])
    ensures AllSpace(s[..|s| - |r|])
  {
    if |s| > 0 && IsSpace(s[0]) then StripLeading(s[1..]) else s
  }

  function StripTrailing(s: string): (r: string)
    ensures |r| <= |s| && s[..|r|] == r
    ensures |r| > 0 ==> !IsSpace(r[|r| - 1])
    ensures AllSpace(s[|r|..])
  {
    if |s| > 0 && IsSpace(s[|s| - 1]) then
      var r := StripTrailing(s[..|s| - 1]);
      assert s[|r|..] == s[..|s| - 1][|r|..] + [s[|s| - 1]];
      r
    else s
  }

  /** `strip_string`: white space removed at both ends. */
  function Strip(s: string): string
  {
    StripTrailing(StripLeading(s))
  }

  /** Stripping a word that neither starts nor ends with white space from
      white-space padding gives the word back. */
  lemma {:induction false} StripPadded(pre: string, w: string, post: string)
    requires AllSpace(pre) && AllSpace(post)
    requires |w| > 0 && !IsSpace(w[0]) && !IsSpace(w[|w| - 1])
    ensures Strip(pre + w + post) == w
  {
    StripLeadingPadded(pre, w + post);
    assert pre + w + post == pre + (w + post);
    StripTrailingPadded(w, post);
  }

  lemma {:induction false} StripLeadingPadded(pre: string, rest: string)
    requires AllSpace(pre) && |rest| > 0 && !IsSpace(rest[0])
    ensures StripLeading(pre + rest) == rest
  {
    if |pre| > 0 {
      assert (pre + rest)[1..] == pre[1..] + rest;
      StripLeadingPadded(pre[1..], rest);
    }
  }

  lemma {:induction false} StripTrailingPadded(w: string, post: string)
    requires AllSpace(post) && |w| > 0 && !IsSpace(w[|w| - 1])
    ensures StripTrailing(w + post) == w
  {
    if |post| > 0 {
      assert (w + post)[..|w + post| - 1] == w + post[..|post| - 1];
      StripTrailingPadded(w, post[..|post| - 1]);
    }
  }

  /** `human_string_to_next_color` as evidently intended: the input is first
      lowered and stripped, as the function computes but then ignores. */
  function ParseColorNormalized(str: string): (r: Result<NextColor, ParseError>)
    ensures r.Ok? ==> ColorName(r.value) == Strip(Lower(str))
  {
    ParseColor(Strip(Lower(str)))
  }

  /** The as-written parser refuses every spelling of a colour other than
      the exact lower-case name (another mixture of cases, or white space
      around it), all of which the lowered and stripped string, computed and
      then discarded by the source, would have turned into the name. */
  lemma ParseColorIgnoresNormalization(nc: NextColor, pre: string, w: string, post: string)
    requires AllSpace(pre) && AllSpace(post)
    requires Lower(w) == ColorName(nc)
    requires pre + w + post != ColorName(nc)
    ensures ParseColor(pre + w + post) == Err(InvalidColor)
    ensures ParseColorNormalized(pre + w + post) == Ok(nc)
  {
    var x := pre + w + post;
    NormalizedAcceptsVariants(nc, pre, w, post);
    if ParseColor(x).Ok? {
      var v := ParseColor(x).value;
      NamesAreLower(v);
      NamesAreTrimmed(v);
      StripPadded([], x, []);
    }
  }

  /** For instance " blue" is refused as written. */
  lemma ParseColorRefusesPadded()
    ensures ParseColor(" blue") == Err(InvalidColor)
    ensures ParseColorNormalized(" blue") == Ok(Blue)
  {
    NamesAreLower(Blue);
    assert " " + "blue" + [] == " blue";
    ParseColorIgnoresNormalization(Blue, " ", "blue", []);
  }

  /** The colour names are in lower case. */
  lemma NamesAreLower(nc: NextColor)
    ensures Lower(ColorName(nc)) == ColorName(nc)
  {
  }

  /** The colour names neither start nor end with white space. */
  lemma NamesAreTrimmed(nc: NextColor)
    ensures !IsSpace(ColorName(nc)[0]) && !IsSpace(ColorName(nc)[|ColorName(nc)| - 1])
  {
  }

  /** The corrected parser accepts every colour name in any mixture of
      cases and with any white-space padding. */
  lemma NormalizedAcceptsVariants(nc: NextColor, pre: string, w: string, post: string)
    requires AllSpace(pre) && AllSpace(post)
    requires Lower(w) == ColorName(nc)
    ensures ParseColorNormalized(pre + w + post) == Ok(nc)
  {
    LowerSpaces(pre);
    LowerSpaces(post);
    LowerConcat(pre, w, post);
    NamesAreTrimmed(nc);
    StripPadded(Lower(pre), ColorName(nc), Lower(post));
    ParseColorIff(ColorName(nc));
  }

  lemma LowerSpaces(s: string)
    requires AllSpace(s)
    ensures Lower(s) == s
  {
  }

  lemma LowerConcat(a: string, b: string, c: string)
    ensures Lower(a + b + c) == Lower(a) + Lower(b) + Lower(c)
  {
  }

  /** `to_string(PlayerMove)`. */
  function MoveName(pm: PlayerMove): (r: string)
    ensures |r| > 0
  {
    match pm
    case SwipeUp => "SWIPE_UP"
    case SwipeDown => "SWIPE_DOWN"
    case SwipeLeft => "SWIPE_LEFT"
    case SwipeRight => "SWIPE_RIGHT"
    case Unknown => "UNKNOWN"
  }

  /** `player_move_from_string`: exact names of the four swipes only. */
  function ParseMove(a: string): (r: Result<PlayerMove, ParseError>)
    ensures r.Ok? ==> IsSwipe(r.value) && MoveName(r.value) == a
    ensures r.Err? ==> r.error == BadPlayersMove
  {
    if a == "SWIPE_UP" then Ok(SwipeUp)
    else if a == "SWIPE_DOWN" then Ok(SwipeDown)
    else if a == "SWIPE_LEFT" then Ok(SwipeLeft)
    else if a == "SWIPE_RIGHT" then Ok(SwipeRight)
    else Err(BadPlayersMove)
  }

  /** Parsing inverts `MoveName` on the four swipes and refuses the name of
      `Unknown`. */
  lemma MoveRoundTrip(pm: PlayerMove)
    ensures IsSwipe(pm) ==> ParseMove(MoveName(pm)) == Ok(pm)
    ensures !IsSwipe(pm) ==> ParseMove(MoveName(pm)) == Err(BadPlayersMove)
  {
    match pm
    case SwipeUp =>
    case SwipeDown =>
      assert "SWIPE_DOWN" != "SWIPE_UP";
    case SwipeLeft =>
      assert "SWIPE_LEFT" != "SWIPE_UP";
    case SwipeRight =>
      assert "SWIPE_RIGHT" != "SWIPE_UP" && "SWIPE_RIGHT" != "SWIPE_LEFT";
    case Unknown =>
      assert "UNKNOWN"[0] != "SWIPE_UP"[0];
  }
}
