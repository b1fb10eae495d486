/** The pieces of the shared HTML report (`renderGroupedAlerts`,
    `renderAlert`, `renderSection`, `renderMeta`). Every text that comes from
    the request goes through `esc`, so the only markup in the result is the
    renderer's own: the lemmas below count the `<` characters and find
    exactly the tags the templates write. */
module HtmlRender {
  import opened Wrappers
  import opened Text
  import opened Json
  import opened Draft
  import opened Html
  import opened Markup

  /** The three alert groups, in the order they are rendered. */
  datatype Level = Error | Warn | Info {
    function Name(): (n: string)
      ensures Plain(n)
    {
      match this
      case Error => "error"
      case Warn => "warn"
      case Info => "info"
    }

    function Title(): (t: string)
      ensures '<' !in t && t != []
    {
      match this
      case Error => "Erros"
      case Warn => "Avisos"
      case Info => "Informações"
    }

    function Heading(): string {
      Tag("h2") + Title() + Tag("/h2")
    }
  }

  /** The number of tags opened or closed in a text: its `<` characters. */
  function Tags(s: string): nat
    decreases |s|
  {
    if s == [] then 0 else (if s[0] == '<' then 1 else 0) + Tags(s[1..])
  }

  lemma {:induction false} TagFree(s: string)
    requires '<' !in s
    ensures Tags(s) == 0
    decreases |s|
  {
    if s != [] {
      assert s[0] in s;
      assert forall x :: x in s[1..] ==> x in s;
      TagFree(s[1..]);
    }
  }

  lemma {:induction false} TagsConcat(a: string, b: string)
    ensures Tags(a + b) == Tags(a) + Tags(b)
    decreases |a|
  {
    if a == [] {
      assert a + b == b;
    } else {
      assert (a + b)[1..] == a[1..] + b;
      TagsConcat(a[1..], b);
    }
  }

  lemma OneTag(inner: string)
    requires '<' !in inner
    ensures Tags(Tag(inner)) == 1
  {
    TagFree(inner);
    TagsConcat("<", inner);
    TagsConcat("<" + inner, ">");
  }

  /** `renderAlert(a, level)`: the alert box, with a badge only when the
      alert has a code. */
  function RenderAlert(a: Alert, level: Level): (r: string)
    ensures Tags(r) == if a.code != [] then 4 else 2
  {
    var code := if a.code != [] then Tag(BadgeInner(level)) + Esc(a.code) + Tag("/span") else "";
    var msg := Esc(a.message);
    AlertTagCount(a, level);
    Tag(AlertInner(level)) + code + msg + Tag("/div")
  }

  /** The inside of an alert box's opening tag. */
  function AlertInner(level: Level): string {
    "div class=\"alert " + level.Name() + "\""
  }

  /** The inside of a code badge's opening tag. */
  function BadgeInner(level: Level): string {
    "span class=\"badge " + level.Name() + "\""
  }

  lemma AlertTagCount(a: Alert, level: Level)
    ensures var code := if a.code != [] then Tag(BadgeInner(level)) + Esc(a.code) + Tag("/span") else "";
            Tags(Tag(AlertInner(level)) + code + Esc(a.message) + Tag("/div"))
            == if a.code != [] then 4 else 2
  {
    InnerTagsPlain(level);
    FixedTagsPlain();
    OneTag(AlertInner(level));
    OneTag(BadgeInner(level));
    OneTag("/span");
    OneTag("/div");
    TagFree(Esc(a.code));
    TagFree(Esc(a.message));
    var open, badge, x, close := Tag(AlertInner(level)), Tag(BadgeInner(level)), Esc(a.code), Tag("/span");
    TagsConcat(badge, x);
    TagsConcat(badge + x, close);
    var code := if a.code != [] then badge + x + close else "";
    TagsConcat(open, code);
    TagsConcat(open + code, Esc(a.message));
    TagsConcat(open + code + Esc(a.message), Tag("/div"));
  }

  /** The tags a rendered alert contributes. */
  function AlertTags(alerts: seq<Alert>): nat
    decreases |alerts|
  {
    if alerts == [] then 0 else (if alerts[0].code != [] then 4 else 2) + AlertTags(alerts[1..])
  }

  /** `alerts.map(a => renderAlert(a, level)).join("")` */
  function RenderAlerts(alerts: seq<Alert>, level: Level): (r: string)
    decreases |alerts|
  {
    if alerts == [] then "" else RenderAlert(alerts[0], level) + RenderAlerts(alerts[1..], level)
  }

  /** The alerts' text never adds a tag. */
  lemma {:induction false} RenderAlertsTags(alerts: seq<Alert>, level: Level)
    ensures Tags(RenderAlerts(alerts, level)) == AlertTags(alerts)
    decreases |alerts|
  {
    if alerts != [] {
      RenderAlertsTags(alerts[1..], level);
      TagsConcat(RenderAlert(alerts[0], level), RenderAlerts(alerts[1..], level));
    }
  }

  /** A rendered alert is never empty, so neither is a non-empty group. */
  lemma RenderAlertsEmpty(alerts: seq<Alert>, level: Level)
    ensures RenderAlerts(alerts, level) == [] <==> alerts == []
  {
    if alerts != [] {
      assert Tags(RenderAlert(alerts[0], level)) > 0;
    }
  }

  /** One group: its heading and its alerts, or nothing when it is empty. */
  function Group(alerts: seq<Alert>, level: Level): string {
    if alerts == [] then "" else level.Heading() + RenderAlerts(alerts, level)
  }

  function GroupTags(alerts: seq<Alert>): nat {
    if alerts == [] then 0 else 2 + AlertTags(alerts)
  }

  lemma GroupTagCount(alerts: seq<Alert>, level: Level)
    ensures Tags(Group(alerts, level)) == GroupTags(alerts)
  {
    if alerts != [] {
      RenderAlertsTags(alerts, level);
      OneTag("h2");
      OneTag("/h2");
      TagFree(level.Title());
      TagsConcat(Tag("h2"), level.Title());
      TagsConcat(Tag("h2") + level.Title(), Tag("/h2"));
      TagsConcat(level.Heading(), RenderAlerts(alerts, level));
    }
  }

  const AlertsOpenInner := "div style=\"margin-top:10px\""
  const AlertsOpen := Tag(AlertsOpenInner)

  predicate NoAlerts(g: Grouped) {
    g.error == [] && g.warn == [] && g.info == []
  }

  /** `renderGroupedAlerts(grouped)`: nothing at all when every group is
      empty; otherwise a wrapper holding the non-empty groups, errors first,
      then warnings, then information. */
  function RenderGroupedAlerts(g: Grouped): (r: string)
    ensures r == [] <==> NoAlerts(g)
  {
    if |g.error| + |g.warn| + |g.info| == 0 then ""
    else AlertsOpen + Group(g.error, Error) + Group(g.warn, Warn) + Group(g.info, Info) + Tag("/div")
  }

  /** The markup of the grouped alerts is exactly the wrapper, one heading
      per non-empty group, and each alert's box and badge. */
  lemma GroupedTags(g: Grouped)
    ensures Tags(RenderGroupedAlerts(g))
            == if NoAlerts(g) then 0 else 2 + GroupTags(g.error) + GroupTags(g.warn) + GroupTags(g.info)
  {
    if !NoAlerts(g) {
      GroupTagCount(g.error, Error);
      GroupTagCount(g.warn, Warn);
      GroupTagCount(g.info, Info);
      WrapperTags();
      TagsOfFive(AlertsOpen, Group(g.error, Error), Group(g.warn, Warn), Group(g.info, Info), Tag("/div"));
    }
  }

  /** The wrapper around the groups opens and closes one `div`. */
  lemma WrapperTags()
    ensures Tags(AlertsOpen) == 1 && Tags(Tag("/div")) == 1
  {
    OneTag("div style=\"margin-top:10px\"");
    OneTag("/div");
  }

  lemma TagsOfFive(a: string, b: string, c: string, d: string, e: string)
    ensures Tags(a + b + c + d + e) == Tags(a) + Tags(b) + Tags(c) + Tags(d) + Tags(e)
  {
    TagsConcat(a, b);
    TagsConcat(a + b, c);
    TagsConcat(a + b + c, d);
    TagsConcat(a + b + c + d, e);
  }

  /** Rendering a list of alerts keeps their order: the rendering of two
      lists one after the other is the two renderings one after the other. */
  lemma {:induction false} RenderAlertsConcat(a: seq<Alert>, b: seq<Alert>, level: Level)
    ensures RenderAlerts(a + b, level) == RenderAlerts(a, level) + RenderAlerts(b, level)
    decreases |a|
  {
    if a == [] {
      assert a + b == b;
    } else {
      assert (a + b)[0] == a[0] && (a + b)[1..] == a[1..] + b;
      RenderAlertsConcat(a[1..], b, level);
      Assoc(RenderAlert(a[0], level), RenderAlerts(a[1..], level), RenderAlerts(b, level));
    }
  }

  // ---------------------------------------------------------------------------
  // Reading the alerts back
  // ---------------------------------------------------------------------------

  /** A reader's result: what it read and the tokens after it. */
  datatype Read<T> = Read(value: T, rest: seq<Token>)

  /** The tokens start with `t`. */
  predicate Next(ts: seq<Token>, t: Token) {
    ts != [] && ts[0] == t
  }

  /** An optional text run: its text, or "" when a tag comes first. */
  function OptText(ts: seq<Token>): (r: Read<string>)
    ensures |r.rest| <= |ts|
  {
    if ts != [] && ts[0].TextTok? then Read(ts[0].text, ts[1..]) else Read("", ts)
  }

  /** What each alert shows: its code and its message. */
  function Shown(alerts: seq<Alert>): (s: seq<(string, string)>)
    ensures |s| == |alerts|
  {
    seq(|alerts|, i requires 0 <= i < |alerts| => (alerts[i].code, alerts[i].message))
  }

  /** Reads an alert's message: an optional text run and the box's closing
      tag. */
  function ReadMessage(ts: seq<Token>, code: string): (r: Option<Read<(string, string)>>)
    ensures r.Some? ==> |r.value.rest| < |ts|
  {
    var m := OptText(ts);
    if !Next(m.rest, TagTok("/div")) then None
    else Some(Read((code, Unescape(m.value)), m.rest[1..]))
  }

  /** Reads an alert's badge, after its opening tag, and then the message:
      the badge's text, unescaped, is the code. */
  function ReadBadge(ts: seq<Token>): (r: Option<Read<(string, string)>>)
    ensures r.Some? ==> |r.value.rest| < |ts|
  {
    var c := OptText(ts);
    if !Next(c.rest, TagTok("/span")) then None
    else ReadMessage(c.rest[1..], Unescape(c.value))
  }

  /** Reads one alert box of `level`: the badge's text, unescaped, is the
      code ("" when there is no badge) and the text after it, unescaped,
      the message. */
  function ReadAlert(ts: seq<Token>, level: Level): (r: Option<Read<(string, string)>>)
    ensures r.Some? ==> |r.value.rest| < |ts|
  {
    if !Next(ts, TagTok(AlertInner(level))) then None
    else if Next(ts[1..], TagTok(BadgeInner(level))) then ReadBadge(ts[2..])
    else ReadMessage(ts[1..], "")
  }

  /** Reads the alert boxes of `level` for as long as one opens. */
  function ReadAlerts(ts: seq<Token>, level: Level): (r: Option<Read<seq<(string, string)>>>)
    ensures r.Some? ==> |r.value.rest| <= |ts|
    decreases |ts|
  {
    if !Next(ts, TagTok(AlertInner(level))) then Some(Read([], ts))
    else
      match ReadAlert(ts, level)
      case None => None
      case Some(one) =>
        match ReadAlerts(one.rest, level)
        case None => None
        case Some(more) => Some(Read([one.value] + more.value, more.rest))
  }

  /** The tokens of a group heading. */
  function HeadingTokens(level: Level): seq<Token> {
    [TagTok("h2"), TextTok(level.Title()), TagTok("/h2")]
  }

  /** Reads a group: nothing when its heading does not come next, and
      otherwise the heading followed by at least one alert of the level. */
  function ReadGroup(ts: seq<Token>, level: Level): Option<Read<seq<(string, string)>>> {
    if |ts| >= 3 && ts[..3] == HeadingTokens(level) then
      match ReadAlerts(ts[3..], level)
      case None => None
      case Some(r) => if r.value == [] then None else Some(r)
    else Some(Read([], ts))
  }

  /** Reads a grouped-alerts block back: no markup is no alerts; otherwise
      the wrapper holds the error, warning and information groups in that
      order, at least one of them, and nothing after its closing tag. */
  function ReadGrouped(ts: seq<Token>): Option<(seq<(string, string)>, seq<(string, string)>, seq<(string, string)>)> {
    if ts == [] then Some(([], [], []))
    else if !Next(ts, TagTok(AlertsOpenInner)) then None
    else
      match ReadGroup(ts[1..], Error)
      case None => None
      case Some(e) =>
        match ReadGroup(e.rest, Warn)
        case None => None
        case Some(w) =>
          match ReadGroup(w.rest, Info)
          case None => None
          case Some(i) =>
            if i.rest == [TagTok("/div")] && (e.value != [] || w.value != [] || i.value != [])
            then Some((e.value, w.value, i.value))
            else None
  }

  /** The tags of an alert box hold no angle bracket. */
  lemma InnerTagsPlain(level: Level)
    ensures Plain(AlertInner(level)) && Plain(BadgeInner(level))
    ensures AlertInner(level)[0] == 'd' && BadgeInner(level)[0] == 's'
  {
    assert Plain("div class=\"alert ");
    assert Plain("span class=\"badge ");
    assert Plain("\"");
    PlainConcat("div class=\"alert ", level.Name());
    PlainConcat("div class=\"alert " + level.Name(), "\"");
    PlainConcat("span class=\"badge ", level.Name());
    PlainConcat("span class=\"badge " + level.Name(), "\"");
  }

  /** The fixed tags hold no angle bracket. */
  lemma FixedTagsPlain()
    ensures Plain(AlertsOpenInner) && Plain("/span") && Plain("/div") && Plain("h2") && Plain("/h2")
  {
  }

  /** The tags the renderer writes hold no angle bracket. */
  lemma InnersPlain(level: Level)
    ensures Plain(AlertInner(level)) && Plain(BadgeInner(level)) && Plain(AlertsOpenInner)
    ensures Plain("/span") && Plain("/div") && Plain("h2") && Plain("/h2")
    ensures AlertInner(level)[0] == 'd' && BadgeInner(level)[0] == 's'
  {
    InnerTagsPlain(level);
    FixedTagsPlain();
  }

  /** The badge's tokens: none without a code. */
  function BadgeTokens(a: Alert, level: Level): seq<Token> {
    if a.code != [] then [TagTok(BadgeInner(level))] + TextTokens(Esc(a.code)) + [TagTok("/span")] else []
  }

  /** The tokens of one rendered alert. */
  function AlertTokens(a: Alert, level: Level): seq<Token> {
    [TagTok(AlertInner(level))] + BadgeTokens(a, level) + (TextTokens(Esc(a.message)) + [TagTok("/div")])
  }

  /** The badge as it is written. */
  function BadgePieces(a: Alert, level: Level): seq<Piece> {
    if a.code != [] then [PTag(BadgeInner(level)), PText(Esc(a.code)), PTag("/span")] else []
  }

  /** One alert as it is written. */
  function AlertPieces(a: Alert, level: Level): seq<Piece> {
    [PTag(AlertInner(level))] + BadgePieces(a, level) + [PText(Esc(a.message)), PTag("/div")]
  }

  lemma BadgeLayout(a: Alert, level: Level)
    ensures WellFormed(BadgePieces(a, level))
    ensures Layout(BadgePieces(a, level)) == if a.code != [] then Tag(BadgeInner(level)) + Esc(a.code) + Tag("/span") else ""
    ensures PieceTokens(BadgePieces(a, level)) == BadgeTokens(a, level)
  {
    InnersPlain(level);
    if a.code != [] {
      Three(PTag(BadgeInner(level)), PText(Esc(a.code)), PTag("/span"));
      WellFormedTagTextTag(BadgeInner(level), Esc(a.code), "/span");
    }
  }

  lemma AlertLayout(a: Alert, level: Level)
    ensures WellFormed(AlertPieces(a, level))
    ensures Layout(AlertPieces(a, level)) == RenderAlert(a, level)
    ensures PieceTokens(AlertPieces(a, level)) == AlertTokens(a, level)
  {
    InnersPlain(level);
    var head := [PTag(AlertInner(level))];
    var b := BadgePieces(a, level);
    var tail := [PText(Esc(a.message)), PTag("/div")];
    BadgeLayout(a, level);
    LayoutOne(PTag(AlertInner(level)));
    Two(PText(Esc(a.message)), PTag("/div"));
    WellFormedTextTag(Esc(a.message), "/div");
    assert WellFormed(head) by { assert head[1..] == []; }
    WellFormedConcat(head, b);
    WellFormedConcat(head + b, tail);
    LayoutConcat(head, b);
    LayoutConcat(head + b, tail);
    PieceTokensConcat(head, b);
    PieceTokensConcat(head + b, tail);
    Assoc(Tag(AlertInner(level)) + Layout(b), Esc(a.message), Tag("/div"));
  }

  /** A text run followed by a tag reads as that text. */
  lemma OptTextOf(t: string, x: string, rest: seq<Token>)
    ensures OptText(TextTokens(t) + ([TagTok(x)] + rest)) == Read(t, [TagTok(x)] + rest)
  {
  }

  lemma ReadMessageOf(m: string, code: string, rest: seq<Token>)
    ensures ReadMessage(TextTokens(m) + ([TagTok("/div")] + rest), code) == Some(Read((code, Unescape(m)), rest))
  {
    OptTextOf(m, "/div", rest);
    assert ([TagTok("/div")] + rest)[1..] == rest;
  }

  lemma ReadBadgeOf(c: string, m: string, rest: seq<Token>)
    ensures ReadBadge(TextTokens(c) + ([TagTok("/span")] + (TextTokens(m) + ([TagTok("/div")] + rest))))
            == Some(Read((Unescape(c), Unescape(m)), rest))
  {
    var tail := TextTokens(m) + ([TagTok("/div")] + rest);
    OptTextOf(c, "/span", tail);
    assert ([TagTok("/span")] + tail)[1..] == tail;
    ReadMessageOf(m, Unescape(c), rest);
  }

  /** After the box's tag, a badge's tag reads the badge. */
  lemma ReadAlertBadgeCase(ts: seq<Token>, level: Level)
    requires Next(ts, TagTok(AlertInner(level))) && Next(ts[1..], TagTok(BadgeInner(level)))
    ensures ReadAlert(ts, level) == ReadBadge(ts[2..])
  {
  }

  /** After the box's tag, anything but a badge's tag reads the message. */
  lemma ReadAlertPlainCase(ts: seq<Token>, level: Level)
    requires Next(ts, TagTok(AlertInner(level))) && !Next(ts[1..], TagTok(BadgeInner(level)))
    ensures ReadAlert(ts, level) == ReadMessage(ts[1..], "")
  {
  }

  /** An alert box with a badge reads its badge next. */
  lemma ReadBadgedAlert(level: Level, after: seq<Token>)
    ensures ReadAlert([TagTok(AlertInner(level))] + ([TagTok(BadgeInner(level))] + after), level) == ReadBadge(after)
  {
    var ts := [TagTok(AlertInner(level))] + ([TagTok(BadgeInner(level))] + after);
    assert ts[1..] == [TagTok(BadgeInner(level))] + after;
    assert ts[2..] == after;
    ReadAlertBadgeCase(ts, level);
  }

  /** An alert box without a badge reads its message next. */
  lemma ReadPlainAlert(level: Level, after: seq<Token>)
    requires !Next(after, TagTok(BadgeInner(level)))
    ensures ReadAlert([TagTok(AlertInner(level))] + after, level) == ReadMessage(after, "")
  {
    var ts := [TagTok(AlertInner(level))] + after;
    assert ts[1..] == after;
    ReadAlertPlainCase(ts, level);
  }

  lemma ReadAlertOf(a: Alert, level: Level, rest: seq<Token>)
    ensures ReadAlert(AlertTokens(a, level) + rest, level) == Some(Read((a.code, a.message), rest))
  {
    EscRoundTrip(a.code);
    EscRoundTrip(a.message);
    var head := [TagTok(AlertInner(level))];
    var b := BadgeTokens(a, level);
    var m := TextTokens(Esc(a.message));
    var after := [TagTok("/div")] + rest;
    calc {
      AlertTokens(a, level) + rest;
      head + b + (m + [TagTok("/div")]) + rest;
      { Assoc(head + b, m + [TagTok("/div")], rest); Assoc(m, [TagTok("/div")], rest); }
      head + b + (m + after);
      { Assoc(head, b, m + after); }
      head + (b + (m + after));
    }
    if a.code != [] {
      var c := TextTokens(Esc(a.code));
      var tail := m + after;
      calc {
        b + tail;
        [TagTok(BadgeInner(level))] + c + [TagTok("/span")] + tail;
        { Assoc([TagTok(BadgeInner(level))] + c, [TagTok("/span")], tail);
          Assoc([TagTok(BadgeInner(level))], c, [TagTok("/span")] + tail); }
        [TagTok(BadgeInner(level))] + (c + ([TagTok("/span")] + tail));
      }
      ReadBadgedAlert(level, c + ([TagTok("/span")] + tail));
      ReadBadgeOf(Esc(a.code), Esc(a.message), rest);
    } else {
      assert b + (m + after) == m + after;
      InnersPlain(level);
      assert "/div"[0] != BadgeInner(level)[0];
      assert !Next(m + after, TagTok(BadgeInner(level)));
      ReadPlainAlert(level, m + after);
      ReadMessageOf(Esc(a.message), "", rest);
    }
  }

  /** The tokens of a rendered list of alerts. */
  function AlertsTokens(alerts: seq<Alert>, level: Level): seq<Token>
    decreases |alerts|
  {
    if alerts == [] then [] else AlertTokens(alerts[0], level) + AlertsTokens(alerts[1..], level)
  }

  /** A list of alerts as it is written. */
  function AlertsPieces(alerts: seq<Alert>, level: Level): seq<Piece>
    decreases |alerts|
  {
    if alerts == [] then [] else AlertPieces(alerts[0], level) + AlertsPieces(alerts[1..], level)
  }

  lemma {:induction false} AlertsLayout(alerts: seq<Alert>, level: Level)
    ensures WellFormed(AlertsPieces(alerts, level))
    ensures Layout(AlertsPieces(alerts, level)) == RenderAlerts(alerts, level)
    ensures PieceTokens(AlertsPieces(alerts, level)) == AlertsTokens(alerts, level)
    decreases |alerts|
  {
    if alerts != [] {
      var one := AlertPieces(alerts[0], level);
      var more := AlertsPieces(alerts[1..], level);
      AlertLayout(alerts[0], level);
      AlertsLayout(alerts[1..], level);
      WellFormedConcat(one, more);
      LayoutConcat(one, more);
      PieceTokensConcat(one, more);
    }
  }

  /** One alert read, then the rest: the list reads as the one in front. */
  lemma ReadAlertsStep(ts: seq<Token>, level: Level, v: (string, string), mid: seq<Token>,
                       w: seq<(string, string)>, rest: seq<Token>)
    requires ReadAlert(ts, level) == Some(Read(v, mid))
    requires ReadAlerts(mid, level) == Some(Read(w, rest))
    ensures ReadAlerts(ts, level) == Some(Read([v] + w, rest))
  {
    assert Next(ts, TagTok(AlertInner(level)));
  }

  lemma ShownCons(alerts: seq<Alert>)
    requires alerts != []
    ensures Shown(alerts) == [(alerts[0].code, alerts[0].message)] + Shown(alerts[1..])
  {
  }

  lemma {:induction false} ReadAlertsOf(alerts: seq<Alert>, level: Level, rest: seq<Token>)
    requires !Next(rest, TagTok(AlertInner(level)))
    ensures ReadAlerts(AlertsTokens(alerts, level) + rest, level) == Some(Read(Shown(alerts), rest))
    decreases |alerts|
  {
    if alerts == [] {
      assert AlertsTokens(alerts, level) + rest == rest;
    } else {
      var more := AlertsTokens(alerts[1..], level) + rest;
      Assoc(AlertTokens(alerts[0], level), AlertsTokens(alerts[1..], level), rest);
      ReadAlertOf(alerts[0], level, more);
      ReadAlertsOf(alerts[1..], level, rest);
      ReadAlertsStep(AlertTokens(alerts[0], level) + more, level, (alerts[0].code, alerts[0].message),
                     more, Shown(alerts[1..]), rest);
      ShownCons(alerts);
    }
  }

  /** The tokens of one group. */
  function GroupTokens(alerts: seq<Alert>, level: Level): seq<Token> {
    if alerts == [] then [] else HeadingTokens(level) + AlertsTokens(alerts, level)
  }

  /** A group as it is written. */
  function GroupPieces(alerts: seq<Alert>, level: Level): seq<Piece> {
    if alerts == [] then [] else HeadingPieces(level) + AlertsPieces(alerts, level)
  }

  /** A group heading as it is written. */
  function HeadingPieces(level: Level): seq<Piece> {
    [PTag("h2"), PText(level.Title()), PTag("/h2")]
  }

  lemma HeadingLayout(level: Level)
    ensures WellFormed(HeadingPieces(level))
    ensures Layout(HeadingPieces(level)) == level.Heading()
    ensures PieceTokens(HeadingPieces(level)) == HeadingTokens(level)
  {
    InnersPlain(level);
    Three(PTag("h2"), PText(level.Title()), PTag("/h2"));
    WellFormedTagTextTag("h2", level.Title(), "/h2");
  }

  lemma GroupLayout(alerts: seq<Alert>, level: Level)
    ensures WellFormed(GroupPieces(alerts, level))
    ensures Layout(GroupPieces(alerts, level)) == Group(alerts, level)
    ensures PieceTokens(GroupPieces(alerts, level)) == GroupTokens(alerts, level)
  {
    if alerts != [] {
      var head := HeadingPieces(level);
      var body := AlertsPieces(alerts, level);
      assert GroupPieces(alerts, level) == head + body;
      HeadingLayout(level);
      AlertsLayout(alerts, level);
      WellFormedConcat(head, body);
      LayoutConcat(head, body);
      PieceTokensConcat(head, body);
    }
  }

  /** Where a group may not start: neither an alert box nor the heading of
      `level` comes next. */
  predicate Opens(ts: seq<Token>, level: Level) {
    Next(ts, TagTok(AlertInner(level))) || (|ts| >= 3 && ts[..3] == HeadingTokens(level))
  }

  /** A heading or the closing tag comes next. */
  predicate AtBoundary(ts: seq<Token>) {
    Next(ts, TagTok("h2")) || Next(ts, TagTok("/div"))
  }

  /** Different levels have titles with different first letters. */
  lemma TitlesDiffer(level: Level, other: Level)
    requires level != other
    ensures level.Title()[0] != other.Title()[0]
  {
  }

  /** A non-empty group starts with its heading. */
  lemma GroupHead(alerts: seq<Alert>, level: Level, rest: seq<Token>)
    requires alerts != []
    ensures var ts := GroupTokens(alerts, level) + rest;
            |ts| >= 3 && ts[..3] == HeadingTokens(level) && ts[3..] == AlertsTokens(alerts, level) + rest
  {
    Assoc(HeadingTokens(level), AlertsTokens(alerts, level), rest);
  }

  /** A group of another level, put in front, starts at a boundary and
      opens nothing of `other`. */
  lemma GroupBoundary(alerts: seq<Alert>, level: Level, rest: seq<Token>, other: Level)
    requires level != other && AtBoundary(rest) && !Opens(rest, other)
    ensures AtBoundary(GroupTokens(alerts, level) + rest) && !Opens(GroupTokens(alerts, level) + rest, other)
  {
    if alerts != [] {
      InnersPlain(other);
      var ts := GroupTokens(alerts, level) + rest;
      GroupHead(alerts, level, rest);
      assert ts[0] == ts[..3][0] == TagTok("h2");
      assert ts[1] == ts[..3][1] == TextTok(level.Title());
      TitlesDiffer(level, other);
      assert ts[..3][1] != HeadingTokens(other)[1];
      assert "h2"[0] != AlertInner(other)[0];
    } else {
      assert GroupTokens(alerts, level) + rest == rest;
    }
  }

  lemma ReadGroupOf(alerts: seq<Alert>, level: Level, rest: seq<Token>)
    requires !Opens(rest, level)
    ensures ReadGroup(GroupTokens(alerts, level) + rest, level) == Some(Read(Shown(alerts), rest))
  {
    if alerts == [] {
      assert GroupTokens(alerts, level) + rest == rest;
    } else {
      GroupHead(alerts, level, rest);
      ReadAlertsOf(alerts, level, rest);
    }
  }

  /** The grouped block as it is written. */
  function GroupedPieces(g: Grouped): seq<Piece> {
    [PTag(AlertsOpenInner)] + GroupPieces(g.error, Error) + GroupPieces(g.warn, Warn)
    + GroupPieces(g.info, Info) + [PTag("/div")]
  }

  lemma GroupedWellFormed(g: Grouped)
    ensures WellFormed(GroupedPieces(g))
  {
    FixedTagsPlain();
    var p0 := [PTag(AlertsOpenInner)];
    var p1 := p0 + GroupPieces(g.error, Error);
    var p2 := p1 + GroupPieces(g.warn, Warn);
    var p3 := p2 + GroupPieces(g.info, Info);
    assert WellFormed(p0) by { assert p0[1..] == []; }
    assert WellFormed([PTag("/div")]) by { assert [PTag("/div")][1..] == []; }
    GroupLayout(g.error, Error);
    GroupLayout(g.warn, Warn);
    GroupLayout(g.info, Info);
    WellFormedConcat(p0, GroupPieces(g.error, Error));
    WellFormedConcat(p1, GroupPieces(g.warn, Warn));
    WellFormedConcat(p2, GroupPieces(g.info, Info));
    WellFormedConcat(p3, [PTag("/div")]);
  }

  lemma GroupedLayout(g: Grouped)
    requires !NoAlerts(g)
    ensures WellFormed(GroupedPieces(g))
    ensures Layout(GroupedPieces(g)) == RenderGroupedAlerts(g)
    ensures PieceTokens(GroupedPieces(g))
            == [TagTok(AlertsOpenInner)] + GroupTokens(g.error, Error) + GroupTokens(g.warn, Warn)
               + GroupTokens(g.info, Info) + [TagTok("/div")]
  {
    GroupedWellFormed(g);
    var p0 := [PTag(AlertsOpenInner)];
    var p1 := p0 + GroupPieces(g.error, Error);
    var p2 := p1 + GroupPieces(g.warn, Warn);
    var p3 := p2 + GroupPieces(g.info, Info);
    LayoutOne(PTag(AlertsOpenInner));
    LayoutOne(PTag("/div"));
    GroupLayout(g.error, Error);
    GroupLayout(g.warn, Warn);
    GroupLayout(g.info, Info);
    LayoutConcat(p0, GroupPieces(g.error, Error));
    LayoutConcat(p1, GroupPieces(g.warn, Warn));
    LayoutConcat(p2, GroupPieces(g.info, Info));
    LayoutConcat(p3, [PTag("/div")]);
    PieceTokensConcat(p0, GroupPieces(g.error, Error));
    PieceTokensConcat(p1, GroupPieces(g.warn, Warn));
    PieceTokensConcat(p2, GroupPieces(g.info, Info));
    PieceTokensConcat(p3, [PTag("/div")]);
  }

  /** The grouped block reads as its pieces' tokens. */
  lemma GroupedTokensOf(g: Grouped)
    requires !NoAlerts(g)
    ensures Tokens(RenderGroupedAlerts(g))
            == [TagTok(AlertsOpenInner)] + GroupTokens(g.error, Error) + GroupTokens(g.warn, Warn)
               + GroupTokens(g.info, Info) + [TagTok("/div")]
  {
    GroupedLayout(g);
    TokensOfLayout(GroupedPieces(g), "");
    assert Layout(GroupedPieces(g)) + "" == Layout(GroupedPieces(g));
    assert PieceTokens(GroupedPieces(g)) + Tokens("") == PieceTokens(GroupedPieces(g));
  }

  /** The grouped block read from its three groups' readings. */
  lemma ReadGroupedParts(ts: seq<Token>, e: seq<(string, string)>, w: seq<(string, string)>,
                         i: seq<(string, string)>, r1: seq<Token>, r2: seq<Token>)
    requires Next(ts, TagTok(AlertsOpenInner))
    requires ReadGroup(ts[1..], Error) == Some(Read(e, r1))
    requires ReadGroup(r1, Warn) == Some(Read(w, r2))
    requires ReadGroup(r2, Info) == Some(Read(i, [TagTok("/div")]))
    requires e != [] || w != [] || i != []
    ensures ReadGrouped(ts) == Some((e, w, i))
  {
  }

  /** The grouped tokens, opened after the wrapper. */
  lemma GroupedTail(g: Grouped)
    requires !NoAlerts(g)
    ensures var ts := Tokens(RenderGroupedAlerts(g));
            Next(ts, TagTok(AlertsOpenInner))
            && ts[1..] == GroupTokens(g.error, Error) + (GroupTokens(g.warn, Warn) + (GroupTokens(g.info, Info) + [TagTok("/div")]))
  {
    GroupedTokensOf(g);
    var te, tw, ti := GroupTokens(g.error, Error), GroupTokens(g.warn, Warn), GroupTokens(g.info, Info);
    var close := [TagTok("/div")];
    Assoc(tw, ti, close);
    Assoc(te, tw + ti, close);
    Assoc(te, tw, ti);
    Assoc([TagTok(AlertsOpenInner)], te + tw + ti, close);
    Assoc([TagTok(AlertsOpenInner)], te + tw, ti);
    Assoc([TagTok(AlertsOpenInner)], te, tw);
  }

  /** Reading the grouped alerts back gives each group's alerts, in their
      order, each with its code and message: the errors come first, then
      the warnings, then the information, every text is escaped so that it
      reads back whole, and a heading is written only for a group that has
      alerts. */
  lemma GroupedReadsBack(g: Grouped)
    ensures ReadGrouped(Tokens(RenderGroupedAlerts(g))) == Some((Shown(g.error), Shown(g.warn), Shown(g.info)))
  {
    if NoAlerts(g) {
      assert RenderGroupedAlerts(g) == "";
    } else {
      InnersPlain(Error);
      InnersPlain(Warn);
      InnersPlain(Info);
      var close := [TagTok("/div")];
      var ri := GroupTokens(g.info, Info) + close;
      var rw := GroupTokens(g.warn, Warn) + ri;
      assert "/div"[0] != AlertInner(Info)[0];
      GroupBoundary(g.info, Info, close, Warn);
      GroupBoundary(g.info, Info, close, Error);
      GroupBoundary(g.warn, Warn, ri, Error);
      GroupedTail(g);
      ReadGroupOf(g.error, Error, rw);
      ReadGroupOf(g.warn, Warn, ri);
      ReadGroupOf(g.info, Info, close);
      ReadGroupedParts(Tokens(RenderGroupedAlerts(g)), Shown(g.error), Shown(g.warn), Shown(g.info), rw, ri);
    }
  }

  /** One alert box reads back as its code and message. */
  lemma RenderAlertReadsBack(a: Alert, level: Level)
    ensures ReadAlert(Tokens(RenderAlert(a, level)), level) == Some(Read((a.code, a.message), []))
  {
    AlertLayout(a, level);
    TokensOfLayout(AlertPieces(a, level), "");
    assert Layout(AlertPieces(a, level)) + "" == Layout(AlertPieces(a, level));
    ReadAlertOf(a, level, []);
    assert AlertTokens(a, level) + [] == AlertTokens(a, level);
  }

  // ---------------------------------------------------------------------------
  // Sections and metadata
  // ---------------------------------------------------------------------------

  /** The template's own indentation around a card. */
  const Indent := "\n  "

  /** A card holding an escaped heading and raw body markup. */
  function Card(heading: string, bodyHtml: string): string {
    Tag("div class=\"card\"") + "\n    " + Tag("h2") + Esc(heading) + Tag("/h2") + "\n    " + bodyHtml + Indent + Tag("/div")
  }

  /** `renderSection(s)`: the template literal, trimmed. */
  function RenderSection(heading: string, bodyHtml: string): string {
    Trim(Indent + Card(heading, bodyHtml) + Indent)
  }

  /** The trim only removes the template's own indentation: the card starts
      at its `<div` and ends at its `</div>`, whatever the heading and the
      body hold. */
  lemma RenderSectionShape(heading: string, bodyHtml: string)
    ensures RenderSection(heading, bodyHtml) == Card(heading, bodyHtml)
  {
    var t := Card(heading, bodyHtml);
    assert t[0] == '<' && t[|t| - 1] == '>';
    assert AllWs(Indent);
    TrimPadded(Indent, t, Indent);
  }

  /** One metadata line: the key and `String(value)`, both escaped. */
  function MetaRow(c: Coercion, k: string, v: JVal): (r: string)
    ensures Tags(r) == 6
  {
    MetaRowTags(Esc(k), Esc(ToStr(c, v)));
    Tag("div") + Tag("span class=\"muted\"") + Esc(k) + Tag("/span") + ": "
    + Tag("span class=\"muted\"") + Esc(ToStr(c, v)) + Tag("/span") + Tag("/div")
  }

  lemma MetaRowTags(k: string, v: string)
    requires '<' !in k && '<' !in v
    ensures Tags(Tag("div") + Tag("span class=\"muted\"") + k + Tag("/span") + ": "
                 + Tag("span class=\"muted\"") + v + Tag("/span") + Tag("/div")) == 6
  {
    OneTag("div");
    OneTag("span class=\"muted\"");
    OneTag("/span");
    OneTag("/div");
    TagFree(k);
    TagFree(v);
    TagFree(": ");
    var p0 := Tag("div");
    var p1 := p0 + Tag("span class=\"muted\"");
    var p2 := p1 + k;
    var p3 := p2 + Tag("/span");
    var p4 := p3 + ": ";
    var p5 := p4 + Tag("span class=\"muted\"");
    var p6 := p5 + v;
    var p7 := p6 + Tag("/span");
    TagsConcat(p0, Tag("span class=\"muted\""));
    TagsConcat(p1, k);
    TagsConcat(p2, Tag("/span"));
    TagsConcat(p3, ": ");
    TagsConcat(p4, Tag("span class=\"muted\""));
    TagsConcat(p5, v);
    TagsConcat(p6, Tag("/span"));
    TagsConcat(p7, Tag("/div"));
  }

  function MetaRows(c: Coercion, es: seq<(string, JVal)>): (r: string)
    ensures Tags(r) == 6 * |es|
    decreases |es|
  {
    if es == [] then ""
    else
      var r := MetaRow(c, es[0].0, es[0].1) + MetaRows(c, es[1..]);
      TagsConcat(MetaRow(c, es[0].0, es[0].1), MetaRows(c, es[1..]));
      r
  }

  /** `renderMeta(meta)`: a rule and one line per own property of
      `meta || {}`, or nothing when it has none. */
  function RenderMeta(c: Coercion, meta: Option<JVal>): (r: string)
    ensures r == [] <==> Entries(Or(meta, JObj([]))) == []
    ensures Tags(r) == if r == [] then 0 else 3 + 6 * |Entries(Or(meta, JObj([])))|
  {
    var es := Entries(Or(meta, JObj([])));
    var kv := MetaRows(c, es);
    if kv == "" then
      assert |es| == 0;
      ""
    else
      MetaBlockTags(kv);
      Tag("hr/") + Tag("div class=\"muted\"") + kv + Tag("/div")
  }

  lemma MetaBlockTags(kv: string)
    ensures Tags(Tag("hr/") + Tag("div class=\"muted\"") + kv + Tag("/div")) == 3 + Tags(kv)
  {
    OneTag("hr/");
    OneTag("div class=\"muted\"");
    OneTag("/div");
    TagsConcat(Tag("hr/"), Tag("div class=\"muted\""));
    TagsConcat(Tag("hr/") + Tag("div class=\"muted\""), kv);
    TagsConcat(Tag("hr/") + Tag("div class=\"muted\"") + kv, Tag("/div"));
  }

  // ---------------------------------------------------------------------------
  // Reading the metadata back
  // ---------------------------------------------------------------------------

  const MutedSpan := "span class=\"muted\""
  const MutedDiv := "div class=\"muted\""

  /** Reads a muted span: its text, unescaped. */
  function ReadSpan(ts: seq<Token>): (r: Option<Read<string>>)
    ensures r.Some? ==> |r.value.rest| < |ts|
  {
    if !Next(ts, TagTok(MutedSpan)) then None
    else
      var x := OptText(ts[1..]);
      if !Next(x.rest, TagTok("/span")) then None else Some(Read(Unescape(x.value), x.rest[1..]))
  }

  /** Reads one metadata line: the key's span, the `: ` between, and the
      value's span. */
  function ReadMetaRow(ts: seq<Token>): (r: Option<Read<(string, string)>>)
    ensures r.Some? ==> |r.value.rest| < |ts|
  {
    if !Next(ts, TagTok("div")) then None
    else
      match ReadSpan(ts[1..])
      case None => None
      case Some(k) =>
        if !Next(k.rest, TextTok(": ")) then None
        else
          match ReadSpan(k.rest[1..])
          case None => None
          case Some(v) =>
            if !Next(v.rest, TagTok("/div")) then None else Some(Read((k.value, v.value), v.rest[1..]))
  }

  /** Reads metadata lines for as long as one opens. */
  function ReadMetaRows(ts: seq<Token>): Option<Read<seq<(string, string)>>>
    decreases |ts|
  {
    if !Next(ts, TagTok("div")) then Some(Read([], ts))
    else
      match ReadMetaRow(ts)
      case None => None
      case Some(one) =>
        match ReadMetaRows(one.rest)
        case None => None
        case Some(more) => Some(Read([one.value] + more.value, more.rest))
  }

  /** Reads a metadata block back: no markup is no entries; otherwise the
      rule and the muted wrapper hold at least one line and nothing follows
      the wrapper's closing tag. */
  function ReadMeta(ts: seq<Token>): Option<seq<(string, string)>> {
    if ts == [] then Some([])
    else if |ts| < 2 || ts[..2] != [TagTok("hr/"), TagTok(MutedDiv)] then None
    else
      match ReadMetaRows(ts[2..])
      case None => None
      case Some(rows) => if rows.value != [] && rows.rest == [TagTok("/div")] then Some(rows.value) else None
  }

  /** What each metadata line shows: the key and `String(value)`. */
  function MetaShown(c: Coercion, es: seq<(string, JVal)>): (s: seq<(string, string)>)
    ensures |s| == |es|
  {
    seq(|es|, i requires 0 <= i < |es| => (es[i].0, ToStr(c, es[i].1)))
  }

  /** The tokens of a muted span around `x`. */
  function SpanTokens(x: string): seq<Token> {
    [TagTok(MutedSpan)] + TextTokens(x) + [TagTok("/span")]
  }

  /** The tokens of one line with the escaped key `x` and value `y`. */
  function RowTokens(x: string, y: string): seq<Token> {
    [TagTok("div")] + SpanTokens(x) + [TextTok(": ")] + SpanTokens(y) + [TagTok("/div")]
  }

  /** The tokens of the metadata lines. */
  function RowsTokens(c: Coercion, es: seq<(string, JVal)>): seq<Token>
    decreases |es|
  {
    if es == [] then [] else RowTokens(Esc(es[0].0), Esc(ToStr(c, es[0].1))) + RowsTokens(c, es[1..])
  }

  lemma ReadSpanOf(x: string, rest: seq<Token>)
    ensures ReadSpan(SpanTokens(x) + rest) == Some(Read(Unescape(x), rest))
  {
    var after := [TagTok("/span")] + rest;
    var ts := SpanTokens(x) + rest;
    calc {
      ts;
      { Assoc([TagTok(MutedSpan)] + TextTokens(x), [TagTok("/span")], rest); }
      [TagTok(MutedSpan)] + TextTokens(x) + after;
      { Assoc([TagTok(MutedSpan)], TextTokens(x), after); }
      [TagTok(MutedSpan)] + (TextTokens(x) + after);
    }
    assert ts[1..] == TextTokens(x) + after;
    OptTextOf(x, "/span", rest);
    assert after[1..] == rest;
  }

  lemma ReadMetaRowOf(x: string, y: string, rest: seq<Token>)
    ensures ReadMetaRow(RowTokens(x, y) + rest) == Some(Read((Unescape(x), Unescape(y)), rest))
  {
    var close := [TagTok("/div")] + rest;
    var second := SpanTokens(y) + close;
    var first := SpanTokens(x) + ([TextTok(": ")] + second);
    var ts := RowTokens(x, y) + rest;
    assert ts == [TagTok("div")] + first by {
      var d, sx, sep, sy, cl := [TagTok("div")], SpanTokens(x), [TextTok(": ")], SpanTokens(y), [TagTok("/div")];
      Assoc(d + sx + sep + sy, cl, rest);
      Assoc(d + sx + sep, sy, close);
      Assoc(d + sx, sep, second);
      Assoc(d, sx, [TextTok(": ")] + second);
    }
    assert ts[1..] == first;
    ReadSpanOf(x, [TextTok(": ")] + second);
    assert ([TextTok(": ")] + second)[1..] == second;
    ReadSpanOf(y, close);
    assert close[1..] == rest;
  }

  /** One line read, then the rest: the lines read as the one in front. */
  lemma ReadMetaRowsStep(ts: seq<Token>, v: (string, string), mid: seq<Token>,
                         w: seq<(string, string)>, rest: seq<Token>)
    requires ReadMetaRow(ts) == Some(Read(v, mid))
    requires ReadMetaRows(mid) == Some(Read(w, rest))
    ensures ReadMetaRows(ts) == Some(Read([v] + w, rest))
  {
    assert Next(ts, TagTok("div"));
  }

  lemma MetaShownCons(c: Coercion, es: seq<(string, JVal)>)
    requires es != []
    ensures MetaShown(c, es) == [(es[0].0, ToStr(c, es[0].1))] + MetaShown(c, es[1..])
  {
  }

  lemma {:induction false} ReadMetaRowsOf(c: Coercion, es: seq<(string, JVal)>, rest: seq<Token>)
    requires !Next(rest, TagTok("div"))
    ensures ReadMetaRows(RowsTokens(c, es) + rest) == Some(Read(MetaShown(c, es), rest))
    decreases |es|
  {
    if es == [] {
      assert RowsTokens(c, es) + rest == rest;
    } else {
      var x, y := Esc(es[0].0), Esc(ToStr(c, es[0].1));
      var more := RowsTokens(c, es[1..]) + rest;
      Assoc(RowTokens(x, y), RowsTokens(c, es[1..]), rest);
      ReadMetaRowOf(x, y, more);
      EscRoundTrip(es[0].0);
      EscRoundTrip(ToStr(c, es[0].1));
      ReadMetaRowsOf(c, es[1..], rest);
      ReadMetaRowsStep(RowTokens(x, y) + more, (es[0].0, ToStr(c, es[0].1)), more, MetaShown(c, es[1..]), rest);
      MetaShownCons(c, es);
    }
  }

  /** A muted span as it is written. */
  function SpanPieces(x: string): seq<Piece> {
    [PTag(MutedSpan), PText(x), PTag("/span")]
  }

  /** One metadata line as it is written. */
  function RowPieces(x: string, y: string): seq<Piece> {
    [PTag("div")] + SpanPieces(x) + ([PText(": ")] + SpanPieces(y)) + [PTag("/div")]
  }

  lemma SpanLayout(x: string)
    requires '<' !in x
    ensures WellFormed(SpanPieces(x)) && SpanPieces(x)[0].PTag?
    ensures Layout(SpanPieces(x)) == Tag(MutedSpan) + x + Tag("/span")
    ensures PieceTokens(SpanPieces(x)) == SpanTokens(x)
  {
    assert Plain(MutedSpan) && Plain("/span");
    Three(PTag(MutedSpan), PText(x), PTag("/span"));
    WellFormedTagTextTag(MutedSpan, x, "/span");
  }

  /** The separator and the value's span. */
  lemma ValueLayout(y: string)
    requires '<' !in y
    ensures WellFormed([PText(": ")] + SpanPieces(y))
    ensures Layout([PText(": ")] + SpanPieces(y)) == ": " + (Tag(MutedSpan) + y + Tag("/span"))
    ensures PieceTokens([PText(": ")] + SpanPieces(y)) == [TextTok(": ")] + SpanTokens(y)
  {
    SpanLayout(y);
    assert '<' !in ": ";
    WellFormedTextFirst(": ", SpanPieces(y));
    LayoutOne(PText(": "));
    LayoutConcat([PText(": ")], SpanPieces(y));
    PieceTokensConcat([PText(": ")], SpanPieces(y));
  }

  lemma RowWellFormed(x: string, y: string)
    requires '<' !in x && '<' !in y
    ensures WellFormed(RowPieces(x, y))
  {
    var d, sx, vy := [PTag("div")], SpanPieces(x), [PText(": ")] + SpanPieces(y);
    assert Plain("div") && Plain("/div");
    WellFormedTag("div");
    WellFormedTag("/div");
    SpanLayout(x);
    ValueLayout(y);
    WellFormedConcat(d, sx);
    WellFormedConcat(d + sx, vy);
    WellFormedConcat(d + sx + vy, [PTag("/div")]);
  }

  lemma RowLayout(x: string, y: string)
    requires '<' !in x && '<' !in y
    ensures WellFormed(RowPieces(x, y))
    ensures Layout(RowPieces(x, y))
            == Tag("div") + Tag(MutedSpan) + x + Tag("/span") + ": " + Tag(MutedSpan) + y + Tag("/span") + Tag("/div")
    ensures PieceTokens(RowPieces(x, y)) == RowTokens(x, y)
  {
    RowWellFormed(x, y);
    var d, sx, vy := [PTag("div")], SpanPieces(x), [PText(": ")] + SpanPieces(y);
    SpanLayout(x);
    ValueLayout(y);
    LayoutOne(PTag("div"));
    LayoutOne(PTag("/div"));
    LayoutConcat(d, sx);
    LayoutConcat(d + sx, vy);
    LayoutConcat(d + sx + vy, [PTag("/div")]);
    PieceTokensConcat(d, sx);
    PieceTokensConcat(d + sx, vy);
    PieceTokensConcat(d + sx + vy, [PTag("/div")]);
    var hx := Tag("div") + (Tag(MutedSpan) + x + Tag("/span"));
    var sy := Tag(MutedSpan) + y + Tag("/span");
    calc {
      hx + (": " + sy) + Tag("/div");
      { Assoc(hx, ": ", sy); }
      hx + ": " + sy + Tag("/div");
      { Assoc(Tag("div"), Tag(MutedSpan) + x, Tag("/span"));
        Assoc(Tag("div"), Tag(MutedSpan), x); }
      Tag("div") + Tag(MutedSpan) + x + Tag("/span") + ": " + sy + Tag("/div");
      { Assoc(Tag("div") + Tag(MutedSpan) + x + Tag("/span") + ": " + Tag(MutedSpan), y, Tag("/span"));
        Assoc(Tag("div") + Tag(MutedSpan) + x + Tag("/span") + ": ", Tag(MutedSpan), y);
        Assoc(Tag("div") + Tag(MutedSpan) + x + Tag("/span") + ": ", Tag(MutedSpan) + y, Tag("/span")); }
      Tag("div") + Tag(MutedSpan) + x + Tag("/span") + ": " + Tag(MutedSpan) + y + Tag("/span") + Tag("/div");
    }
    Assoc([TagTok("div")] + SpanTokens(x), [TextTok(": ")], SpanTokens(y));
  }

  /** The metadata lines as they are written. */
  function RowsPieces(c: Coercion, es: seq<(string, JVal)>): seq<Piece>
    decreases |es|
  {
    if es == [] then [] else RowPieces(Esc(es[0].0), Esc(ToStr(c, es[0].1))) + RowsPieces(c, es[1..])
  }

  lemma {:induction false} RowsLayout(c: Coercion, es: seq<(string, JVal)>)
    ensures WellFormed(RowsPieces(c, es))
    ensures Layout(RowsPieces(c, es)) == MetaRows(c, es)
    ensures PieceTokens(RowsPieces(c, es)) == RowsTokens(c, es)
    decreases |es|
  {
    if es != [] {
      var one := RowPieces(Esc(es[0].0), Esc(ToStr(c, es[0].1)));
      var more := RowsPieces(c, es[1..]);
      RowLayout(Esc(es[0].0), Esc(ToStr(c, es[0].1)));
      RowsLayout(c, es[1..]);
      WellFormedConcat(one, more);
      LayoutConcat(one, more);
      PieceTokensConcat(one, more);
    }
  }

  /** The metadata block as it is written. */
  function MetaPieces(c: Coercion, es: seq<(string, JVal)>): seq<Piece> {
    [PTag("hr/"), PTag(MutedDiv)] + RowsPieces(c, es) + [PTag("/div")]
  }

  lemma MetaWellFormed(c: Coercion, es: seq<(string, JVal)>)
    ensures WellFormed(MetaPieces(c, es))
  {
    var head := [PTag("hr/"), PTag(MutedDiv)];
    assert Plain("hr/") && Plain(MutedDiv) && Plain("/div");
    assert WellFormed(head) by {
      assert head[1..] == [PTag(MutedDiv)];
      WellFormedTag(MutedDiv);
    }
    WellFormedTag("/div");
    RowsLayout(c, es);
    WellFormedConcat(head, RowsPieces(c, es));
    WellFormedConcat(head + RowsPieces(c, es), [PTag("/div")]);
  }

  lemma MetaLayoutText(c: Coercion, es: seq<(string, JVal)>)
    ensures Layout(MetaPieces(c, es)) == Tag("hr/") + Tag(MutedDiv) + MetaRows(c, es) + Tag("/div")
  {
    var head := [PTag("hr/"), PTag(MutedDiv)];
    var rows := RowsPieces(c, es);
    Two(PTag("hr/"), PTag(MutedDiv));
    LayoutOne(PTag("/div"));
    RowsLayout(c, es);
    LayoutConcat(head, rows);
    LayoutConcat(head + rows, [PTag("/div")]);
  }

  lemma MetaLayoutTokens(c: Coercion, es: seq<(string, JVal)>)
    ensures PieceTokens(MetaPieces(c, es)) == [TagTok("hr/"), TagTok(MutedDiv)] + RowsTokens(c, es) + [TagTok("/div")]
  {
    var head := [PTag("hr/"), PTag(MutedDiv)];
    var rows := RowsPieces(c, es);
    Two(PTag("hr/"), PTag(MutedDiv));
    assert PieceTokens(head) == [TagTok("hr/")] + [TagTok(MutedDiv)] == [TagTok("hr/"), TagTok(MutedDiv)];
    LayoutOne(PTag("/div"));
    RowsLayout(c, es);
    PieceTokensConcat(head, rows);
    PieceTokensConcat(head + rows, [PTag("/div")]);
  }

  lemma MetaLayout(c: Coercion, es: seq<(string, JVal)>)
    ensures WellFormed(MetaPieces(c, es))
    ensures Layout(MetaPieces(c, es)) == Tag("hr/") + Tag(MutedDiv) + MetaRows(c, es) + Tag("/div")
    ensures PieceTokens(MetaPieces(c, es)) == [TagTok("hr/"), TagTok(MutedDiv)] + RowsTokens(c, es) + [TagTok("/div")]
  {
    MetaWellFormed(c, es);
    MetaLayoutText(c, es);
    MetaLayoutTokens(c, es);
  }

  /** A rendered metadata block reads as its pieces' tokens. */
  lemma MetaTokensOf(c: Coercion, meta: Option<JVal>)
    requires Entries(Or(meta, JObj([]))) != []
    ensures var es := Entries(Or(meta, JObj([])));
            Tokens(RenderMeta(c, meta)) == [TagTok("hr/"), TagTok(MutedDiv)] + RowsTokens(c, es) + [TagTok("/div")]
  {
    var es := Entries(Or(meta, JObj([])));
    MetaLayout(c, es);
    assert RenderMeta(c, meta) == Layout(MetaPieces(c, es));
    TokensOfLayout(MetaPieces(c, es), "");
    assert Layout(MetaPieces(c, es)) + "" == Layout(MetaPieces(c, es));
    assert PieceTokens(MetaPieces(c, es)) + Tokens("") == PieceTokens(MetaPieces(c, es));
  }

  /** Reading the metadata back gives one line per own property of
      `meta || {}`, in order, each with its key and `String(value)`: the
      escaping keeps every key and value whole, and no properties render
      nothing. */
  lemma MetaReadsBack(c: Coercion, meta: Option<JVal>)
    ensures ReadMeta(Tokens(RenderMeta(c, meta))) == Some(MetaShown(c, Entries(Or(meta, JObj([])))))
  {
    var es := Entries(Or(meta, JObj([])));
    if es == [] {
      assert RenderMeta(c, meta) == "";
    } else {
      MetaTokensOf(c, meta);
      var rows := RowsTokens(c, es);
      var ts := Tokens(RenderMeta(c, meta));
      Assoc([TagTok("hr/"), TagTok(MutedDiv)], rows, [TagTok("/div")]);
      assert ts[..2] == [TagTok("hr/"), TagTok(MutedDiv)];
      assert ts[2..] == rows + [TagTok("/div")];
      assert "/div" != "div";
      ReadMetaRowsOf(c, es, [TagTok("/div")]);
    }
  }

  /** One metadata line reads back as its key and `String(value)`. */
  lemma MetaRowReadsBack(c: Coercion, k: string, v: JVal)
    ensures ReadMetaRow(Tokens(MetaRow(c, k, v))) == Some(Read((k, ToStr(c, v)), []))
  {
    var x, y := Esc(k), Esc(ToStr(c, v));
    RowLayout(x, y);
    TokensOfLayout(RowPieces(x, y), "");
    assert Layout(RowPieces(x, y)) + "" == Layout(RowPieces(x, y));
    assert PieceTokens(RowPieces(x, y)) + Tokens("") == RowTokens(x, y) + [];
    ReadMetaRowOf(x, y, []);
    EscRoundTrip(k);
    EscRoundTrip(ToStr(c, v));
  }
}
