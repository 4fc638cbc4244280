/** The study card (`StudyCard`): the schema a connection maps to, the
    two-state rename button (click to edit, click again to save), the rename
    request a save sends, and when the parent is told the rename succeeded. */
module StudyCard {
  import opened Wrappers
  import opened Js
  import StudyShelf

  /** `bike` maps to `lts`, `pedestrian` to `sidewalk`; any other connection
      leaves the schema `undefined`. */
  function CardSchema(connection: string): (schema: Option<string>)
    ensures connection == "bike" ==> schema == Some("lts")
    ensures connection == "pedestrian" ==> schema == Some("sidewalk")
    ensures schema.None? <==> connection != "bike" && connection != "pedestrian"
  {
    if connection == "bike" then Some("lts")
    else if connection == "pedestrian" then Some("sidewalk")
    else None
  }

  /** Where the card knows a schema it is the one the shelf uses; the shelf
      falls back to `sidewalk` where the card has none. */
  lemma CardSchemaAgreesWithShelf(connection: string)
    ensures CardSchema(connection).Some? ==> CardSchema(connection).value == StudyShelf.SchemaFor(connection)
    ensures CardSchema(connection).None? ==> StudyShelf.SchemaFor(connection) == "sidewalk"
  {
  }

  /** What the card receives from its parent. */
  datatype Props = Props(segName: string, username: string, connection: string)

  datatype CardState = CardState(editing: bool, name: string)

  /** Not editing, with the editable name set to the study's segment name. */
  function InitialCard(p: Props): (s: CardState)
    ensures !s.editing && s.name == p.segName
  {
    CardState(false, p.segName)
  }

  /** The POST a save sends: its URL and its JSON body `{oldName, newName}`. */
  datatype RenameRequest = RenameRequest(url: string, oldName: string, newName: string)

  function RenameUrl(username: string, schema: Option<string>): string
  {
    "http://localhost:8000/rename?username=" + username + "&schema=" + schema.GetOr("undefined")
  }

  /** A click on the button, or typing into the name field. */
  datatype Event = Click | Type(text: string)

  /** One event: a click while not editing enters edit mode; a click while
      editing leaves it and sends the rename; typing changes the name, and
      only while editing, since the field exists only then. */
  function Step(s: CardState, e: Event, p: Props): (CardState, Option<RenameRequest>)
  {
    match e
    case Click =>
      if s.editing then
        (s.(editing := false),
         Some(RenameRequest(RenameUrl(p.username, CardSchema(p.connection)), p.segName, s.name)))
      else (s.(editing := true), None)
    case Type(t) => if s.editing then (s.(name := t), None) else (s, None)
  }

  /** A click flips edit mode and sends a request exactly when it saves; the
      request renames the study's segment to the name being edited. */
  lemma StepSpec(s: CardState, e: Event, p: Props)
    ensures e == Click ==> Step(s, e, p).0.editing == !s.editing
    ensures Step(s, e, p).1.Some? <==> e == Click && s.editing
    ensures Step(s, e, p).1.Some? ==>
              Step(s, e, p).1.value == RenameRequest(RenameUrl(p.username, CardSchema(p.connection)), p.segName, s.name)
    ensures e.Type? ==> Step(s, e, p).0.editing == s.editing
  {
  }

  /** A sequence of events from a state: the final state and the requests
      sent, in order. */
  function Run(s: CardState, events: seq<Event>, p: Props): (CardState, seq<RenameRequest>)
    decreases |events|
  {
    if |events| == 0 then (s, [])
    else
      var (next, sent) := Step(s, events[0], p);
      var (last, rest) := Run(next, events[1..], p);
      (last, (if sent.Some? then [sent.value] else []) + rest)
  }

  /** How many clicks a sequence of events holds. */
  function ClickCount(events: seq<Event>): nat
  {
    if |events| == 0 then 0
    else (if events[0] == Click then 1 else 0) + ClickCount(events[1..])
  }

  /** However the card is used, every rename it sends goes to the same URL and
      names the study's original segment name as the old name; clicks
      alternate between entering edit mode and saving, so the card sends one
      request per second click (counting a card already in edit mode as one
      click ahead) and ends in edit mode exactly after an odd number of
      clicks from a card not editing; every new name is the starting name or
      a text that was typed. */
  lemma {:induction false} RunRequestsSpec(s: CardState, events: seq<Event>, p: Props)
    ensures forall i :: 0 <= i < |Run(s, events, p).1| ==>
              && Run(s, events, p).1[i].oldName == p.segName
              && Run(s, events, p).1[i].url == RenameUrl(p.username, CardSchema(p.connection))
    ensures |Run(s, events, p).1| == (ClickCount(events) + (if s.editing then 1 else 0)) / 2
    ensures Run(s, events, p).0.editing <==> (s.editing <==> ClickCount(events) % 2 == 0)
    ensures forall i :: 0 <= i < |Run(s, events, p).1| ==>
              Run(s, events, p).1[i].newName == s.name
              || exists j :: 0 <= j < |events| && events[j] == Type(Run(s, events, p).1[i].newName)
    ensures |Run(s, events, p).1| <= |events|
    decreases |events|
  {
    if |events| > 0 {
      var (next, sent) := Step(s, events[0], p);
      var rest := events[1..];
      RunRequestsSpec(next, rest, p);
      var reqs := Run(s, events, p).1;
      var tail := Run(next, rest, p).1;
      var head := if sent.Some? then [sent.value] else [];
      assert reqs == head + tail;
      assert next.name == s.name || events[0] == Type(next.name);
      forall i | 0 <= i < |reqs|
        ensures reqs[i].newName == s.name || exists j :: 0 <= j < |events| && events[j] == Type(reqs[i].newName)
      {
        if i < |head| {
          assert reqs[i] == sent.value;
        } else {
          assert reqs[i] == tail[i - |head|];
          if tail[i - |head|].newName != next.name {
            var j :| 0 <= j < |rest| && rest[j] == Type(tail[i - |head|].newName);
            assert events[j + 1] == rest[j];
          } else if next.name != s.name {
            assert events[0] == Type(reqs[i].newName);
          }
        }
      }
    }
  }

  /** Rename, type a new name, save: one request from the segment name to the
      new name, and the card is back out of edit mode. */
  lemma RenameRoundTrip(p: Props, newName: string)
    ensures Run(InitialCard(p), [Click, Type(newName), Click], p)
            == (CardState(false, newName),
                [RenameRequest(RenameUrl(p.username, CardSchema(p.connection)), p.segName, newName)])
  {
    var s0 := InitialCard(p);
    var s1 := CardState(true, p.segName);
    var s2 := CardState(true, newName);
    assert [Click, Type(newName), Click][1..] == [Type(newName), Click];
    assert [Type(newName), Click][1..] == [Click];
    assert [Click][1..] == [];
    var sent := [RenameRequest(RenameUrl(p.username, CardSchema(p.connection)), p.segName, newName)];
    assert Run(s2, [Click], p) == (CardState(false, newName), sent) by {
      assert Run(CardState(false, newName), [], p) == (CardState(false, newName), []);
      assert sent + [] == sent;
    }
    assert Step(s1, Type(newName), p) == (s2, None);
    assert Run(s1, [Type(newName), Click], p) == (CardState(false, newName), [] + sent);
    assert Step(s0, Click, p) == (s1, None);
    assert [] + sent == sent;
  }

  /** The reply to a rename POST: its status and its decoded body, `None`
      when the body is not JSON. */
  datatype RenameReply = RenameReply(status: int, body: Option<Json>)

  /** The parent's `onRenameSuccess` runs only for status 200, only once the
      body has been read as JSON, and only when it is a function; `reply` is
      `None` when the request threw. */
  function NotifiesParent(reply: Option<RenameReply>, callbackIsFunction: bool): (notify: bool)
    ensures notify <==> reply.Some? && reply.value.status == 200 && reply.value.body.Some? && callbackIsFunction
  {
    match reply
    case None => false
    case Some(RenameReply(status, body)) =>
      if status != 200 then false
      else
        match body
        case None => false
        case Some(_) => callbackIsFunction
  }

  /** A click together with what its request, if any, came back with: the
      next state, the request sent and whether the parent was told. */
  function ClickOutcome(s: CardState, p: Props, reply: Option<RenameReply>, callbackIsFunction: bool)
    : (CardState, Option<RenameRequest>, bool)
  {
    var (next, sent) := Step(s, Click, p);
    (next, sent, sent.Some? && NotifiesParent(reply, callbackIsFunction))
  }

  /** The parent hears of a rename only for a save whose reply succeeded, and
      a save leaves edit mode whatever the reply, since the mode is reset
      before the request is made. */
  lemma ClickOutcomeSpec(s: CardState, p: Props, reply: Option<RenameReply>, callbackIsFunction: bool)
    ensures ClickOutcome(s, p, reply, callbackIsFunction).2 ==> ClickOutcome(s, p, reply, callbackIsFunction).1.Some?
    ensures ClickOutcome(s, p, reply, callbackIsFunction).2 <==>
              s.editing && NotifiesParent(reply, callbackIsFunction)
    ensures s.editing ==> !ClickOutcome(s, p, reply, callbackIsFunction).0.editing
    ensures ClickOutcome(s, p, reply, callbackIsFunction).2 ==>
              reply.Some? && reply.value.status == 200 && reply.value.body.Some?
  {
  }

  /** What the card shows: the button text, the name field (while editing) and
      the segment name heading (otherwise). */
  datatype CardView = CardView(button: string, input: Option<string>, heading: Option<string>)

  function Render(s: CardState, p: Props): (v: CardView)
    ensures v.button == "Save" <==> s.editing
    ensures v.button == "Rename" <==> !s.editing
    ensures v.input.Some? <==> s.editing
    ensures v.input.Some? ==> v.input.value == s.name
    ensures v.heading.Some? <==> !s.editing
    ensures v.heading.Some? ==> v.heading.value == p.segName
  {
    if s.editing then CardView("Save", Some(s.name), None)
    else CardView("Rename", None, Some(p.segName))
  }

  /** A click flips the button's label; entering edit mode shows the field
      holding the name, and saving brings back the segment name heading;
      typing while editing shows the typed text in the field. */
  lemma RenderFollowsStep(s: CardState, p: Props, t: string)
    ensures Render(Step(s, Click, p).0, p).button != Render(s, p).button
    ensures !s.editing ==> Render(Step(s, Click, p).0, p).input == Some(s.name)
    ensures s.editing ==> Render(Step(s, Click, p).0, p).heading == Some(p.segName)
    ensures s.editing ==> Render(Step(s, Type(t), p).0, p).input == Some(t)
    ensures !s.editing ==> Render(Step(s, Type(t), p).0, p) == Render(s, p)
    ensures Render(InitialCard(p), p) == CardView("Rename", None, Some(p.segName))
  {
  }
}
