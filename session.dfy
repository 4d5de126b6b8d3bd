/** The session of the ice-breaker command as a state machine over values.
    Each handler of the command is one atomic transition from a state to the next
    state together with the calls it makes into the host (the text-generation
    request, the clipboard, the toast). The request itself is not modelled: its
    outcome arrives later as a separate `Resolved` event carrying either the
    generated text or an error message. Nothing ties a reply to the state in
    which its request was made, exactly as in the command. */
module Session {
  import Creativity
  import Prompt
  import QuestionStyles

  /** The four state variables of the command. */
  datatype State = State(
    creativityLevel: string,
    question: string,
    selectedQuestionStyle: string,
    isLoading: bool)

  datatype ToastStyle = Success | Failure

  /** A call into the host. */
  datatype Effect =
    | Ask(prompt: string, creativity: string)
    | CopyToClipboard(text: string)
    | ShowToast(style: ToastStyle, title: string, message: string)

  /** The next state and the host calls made on the way, in order. */
  datatype Transition = Transition(next: State, effects: seq<Effect>)

  /** How a generation request settles. */
  datatype Reply = Answer(text: string) | Error(message: string)

  /** What can happen to a session: the user's actions and the settling of a request. */
  datatype Event =
    | ChooseStyle(name: string)
    | GenerateNew
    | StartOver
    | MoreCreative
    | LessCreative
    | Resolved(reply: Reply)

  /** What the command shows: the style list while no style is selected, the question otherwise. */
  datatype View =
    | StyleList(loading: bool)
    | QuestionDetail(style: string, question: string, creativity: string)

  const SuccessTitle := "Generated!"
  const SuccessMessage := "The question has been copied to your clipboard."
  const FailureTitle := "Failed to generate question"

  /** The state a session starts in. */
  function Initial(): State {
    State(Creativity.DefaultLevel, "", "", false)
  }

  /** `askQuestion`: mark the session loading and send the prompt for the selected style
      with the current creativity. */
  function AskQuestion(s: State): Transition {
    Transition(
      s.(isLoading := true),
      [Ask(Prompt.BuildPrompt(s.selectedQuestionStyle), s.creativityLevel)])
  }

  /** The success continuation of the request. */
  function OnAnswer(s: State, text: string): Transition {
    Transition(
      s.(question := text, isLoading := false),
      [CopyToClipboard(text), ShowToast(Success, SuccessTitle, SuccessMessage)])
  }

  /** The failure continuation of the request. */
  function OnError(s: State, message: string): Transition {
    Transition(s.(isLoading := false), [ShowToast(Failure, FailureTitle, message)])
  }

  /** `clearQuestion`. */
  function ClearQuestion(s: State): State {
    s.(question := "", isLoading := false)
  }

  /** `clearQuestionStyle`. */
  function ClearQuestionStyle(s: State): State {
    s.(selectedQuestionStyle := "", isLoading := false)
  }

  /** `clear` ("Start over"): both of the above. It empties the question and the
      selected style, stops showing the loading indicator and keeps the creativity. */
  function Clear(s: State): (r: State)
    ensures r == State(s.creativityLevel, "", "", false)
  {
    ClearQuestionStyle(ClearQuestion(s))
  }

  /** Setting the selected style, followed by the effect that watches it: the effect
      runs when the value changed and asks for a question unless the value is empty. */
  function SetSelectedQuestionStyle(s: State, name: string): Transition {
    var t := s.(selectedQuestionStyle := name);
    if name != s.selectedQuestionStyle && name != "" then AskQuestion(t) else Transition(t, [])
  }

  /** "More Creative". */
  function IncreaseCreativityLevel(s: State): State {
    s.(creativityLevel := Creativity.Increase(s.creativityLevel))
  }

  /** "Less Creative". */
  function LowerCreativityLevel(s: State): State {
    s.(creativityLevel := Creativity.Lower(s.creativityLevel))
  }

  /** The screen the command renders for a state. */
  function ViewOf(s: State): (v: View)
    ensures v.StyleList? <==> s.selectedQuestionStyle == ""
    ensures v.StyleList? ==> v.loading == s.isLoading
    ensures v.QuestionDetail? ==> v == QuestionDetail(s.selectedQuestionStyle, s.question, s.creativityLevel)
  {
    if s.selectedQuestionStyle == "" then StyleList(s.isLoading)
    else QuestionDetail(s.selectedQuestionStyle, s.question, s.creativityLevel)
  }

  /** One event. */
  function Step(s: State, e: Event): Transition {
    match e
    case ChooseStyle(name) => SetSelectedQuestionStyle(s, name)
    case GenerateNew => AskQuestion(s)
    case StartOver => Transition(Clear(s), [])
    case MoreCreative => Transition(IncreaseCreativityLevel(s), [])
    case LessCreative => Transition(LowerCreativityLevel(s), [])
    case Resolved(Answer(text)) => OnAnswer(s, text)
    case Resolved(Error(message)) => OnError(s, message)
  }

  /** A sequence of events, one after the other; the host calls are collected in order. */
  function Run(s: State, events: seq<Event>): Transition
    decreases |events|
  {
    if events == [] then Transition(s, [])
    else
      var first := Step(s, events[0]);
      var rest := Run(first.next, events[1..]);
      Transition(rest.next, first.effects + rest.effects)
  }

  /** The number of generation requests among some host calls. */
  function Requests(effects: seq<Effect>): nat {
    if effects == [] then 0 else (if effects[0].Ask? then 1 else 0) + Requests(effects[1..])
  }

  /** Whether the interface offers a user action in a state: a style can be chosen only
      from the list, and only a catalog style; the other actions live on the question
      screen. A reply can always arrive; whether one is due is counted separately. */
  predicate Offered(s: State, e: Event) {
    match e
    case ChooseStyle(name) => ViewOf(s).StyleList? && name in QuestionStyles.Names()
    case Resolved(_) => true
    case _ => ViewOf(s).QuestionDetail?
  }

  /** The events can happen in this order from `s` with `inFlight` requests outstanding:
      every user action is offered when it happens and every reply settles a request
      that is still outstanding. */
  predicate Possible(s: State, inFlight: nat, events: seq<Event>)
    decreases |events|
  {
    events == [] ||
    (Offered(s, events[0]) &&
     (events[0].Resolved? ==> inFlight > 0) &&
     var t := Step(s, events[0]);
     var settled := if events[0].Resolved? then 1 else 0;
     Possible(t.next, inFlight + Requests(t.effects) - settled, events[1..]))
  }

  /** The style list is never shown without a question being cleared with it:
      an empty selection goes with an empty question. */
  predicate NoOrphanQuestion(s: State) {
    s.selectedQuestionStyle == "" ==> s.question == ""
  }

  /** The events are offered by the interface and no answer arrives while the style
      list is shown. */
  predicate NoLateAnswer(s: State, events: seq<Event>)
    decreases |events|
  {
    events == [] ||
    (Offered(s, events[0]) &&
     (events[0].Resolved? && events[0].reply.Answer? ==> s.selectedQuestionStyle != "") &&
     NoLateAnswer(Step(s, events[0]).next, events[1..]))
  }

  // ----- Properties of single transitions -----

  /** `askQuestion` sets the loading flag, keeps the question (the old text stays on
      screen during the request) and issues one request whose prompt is built from the
      selected style, at the current creativity. */
  lemma AskQuestionKeepsQuestion(s: State)
    ensures AskQuestion(s).next.isLoading
    ensures AskQuestion(s).next.question == s.question
    ensures AskQuestion(s).next.selectedQuestionStyle == s.selectedQuestionStyle
    ensures AskQuestion(s).next.creativityLevel == s.creativityLevel
    ensures Requests(AskQuestion(s).effects) == 1
    ensures AskQuestion(s).effects[0].prompt == Prompt.BuildPrompt(s.selectedQuestionStyle)
    ensures AskQuestion(s).effects == [Ask(Prompt.BuildPrompt(s.selectedQuestionStyle), s.creativityLevel)]
  {
  }

  /** Only "Start over" and choosing a style switch between the style list and the
      question screen: "Start over" always returns to the list, choosing shows the list
      only for the empty style, and every other event keeps the current screen. */
  lemma ScreenSwitch(s: State, e: Event)
    ensures ViewOf(Step(s, e).next).StyleList? <==>
      if e.StartOver? then true
      else if e.ChooseStyle? then e.name == ""
      else ViewOf(s).StyleList?
  {
  }

  /** A reply always settles the loading flag. An answer becomes the question whatever
      the state, and is copied and announced; an error keeps the question and is
      announced with its message. Neither changes the style or the creativity. */
  lemma ReplySettles(s: State, r: Reply)
    ensures !Step(s, Resolved(r)).next.isLoading
    ensures Step(s, Resolved(r)).next.selectedQuestionStyle == s.selectedQuestionStyle
    ensures Step(s, Resolved(r)).next.creativityLevel == s.creativityLevel
    ensures r.Answer? ==> Step(s, Resolved(r)).next.question == r.text
    ensures r.Answer? ==>
      Step(s, Resolved(r)).effects == [CopyToClipboard(r.text), ShowToast(Success, SuccessTitle, SuccessMessage)]
    ensures r.Error? ==> Step(s, Resolved(r)).next.question == s.question
    ensures r.Error? ==> Step(s, Resolved(r)).effects == [ShowToast(Failure, FailureTitle, r.message)]
    ensures Requests(Step(s, Resolved(r)).effects) == 0
  {
    var t := Step(s, Resolved(r));
    if r.Answer? {
      assert t.effects[0] == CopyToClipboard(r.text);
      assert t.effects[1..] == [ShowToast(Success, SuccessTitle, SuccessMessage)];
      assert t.effects[1..][1..] == [];
      assert Requests(t.effects[1..]) == 0;
    } else {
      assert t.effects[1..] == [];
    }
  }

  /** Choosing a style selects it. A change to a non-empty style issues exactly one
      request, for that style's prompt; choosing the empty style, or the style already
      selected, issues none. The question is left as it was. */
  lemma ChoosingAStyle(s: State, name: string)
    ensures Step(s, ChooseStyle(name)).next.selectedQuestionStyle == name
    ensures Step(s, ChooseStyle(name)).next.question == s.question
    ensures Step(s, ChooseStyle(name)).next.creativityLevel == s.creativityLevel
    ensures Requests(Step(s, ChooseStyle(name)).effects) == if name != s.selectedQuestionStyle && name != "" then 1 else 0
    ensures name != s.selectedQuestionStyle && name != "" ==>
      Step(s, ChooseStyle(name)).effects == [Ask(Prompt.BuildPrompt(name), s.creativityLevel)]
  {
  }

  /** From the style list, choosing any catalog style leaves the list for the question
      screen, marks the session loading and sends a prompt holding that style's clause. */
  lemma ChoosingFromCatalog(s: State, i: int)
    requires ViewOf(s).StyleList?
    requires 0 <= i < |QuestionStyles.Catalog|
    ensures var name := QuestionStyles.Catalog[i].name;
      var t := Step(s, ChooseStyle(name));
      ViewOf(t.next).QuestionDetail? && t.next.isLoading &&
      t.effects == [Ask(Prompt.BuildPrompt(name), s.creativityLevel)] &&
      Prompt.Contains(Prompt.BuildPrompt(name), Prompt.StyleClauses[name])
  {
    var name := QuestionStyles.Catalog[i].name;
    QuestionStyles.CatalogNames();
    Prompt.CatalogHasClauses();
    Prompt.PromptCarriesClause(name);
  }

  /** The creativity buttons change the creativity and nothing else, and send no request. */
  lemma AdjustingCreativity(s: State)
    ensures Step(s, MoreCreative) == Transition(s.(creativityLevel := Creativity.Increase(s.creativityLevel)), [])
    ensures Step(s, LessCreative) == Transition(s.(creativityLevel := Creativity.Lower(s.creativityLevel)), [])
  {
  }

  // ----- Properties of runs -----

  /** One event changes the creativity only through the two creativity buttons. */
  lemma StepCreativity(s: State, e: Event)
    ensures Step(s, e).next.creativityLevel ==
      if e.MoreCreative? then Creativity.Increase(s.creativityLevel)
      else if e.LessCreative? then Creativity.Lower(s.creativityLevel)
      else s.creativityLevel
  {
  }

  /** The creativity starts at "high" and stays one of the four levels, whatever happens. */
  lemma {:induction false} CreativityStaysOnScale(s: State, events: seq<Event>)
    requires s.creativityLevel in Creativity.Continuum
    ensures Run(s, events).next.creativityLevel in Creativity.Continuum
    decreases |events|
  {
    if events != [] {
      StepCreativity(s, events[0]);
      Creativity.StepsStayOnScale(s.creativityLevel);
      CreativityStaysOnScale(Step(s, events[0]).next, events[1..]);
    }
  }

  /** A fresh session starts at the default level, on the scale. */
  lemma InitialCreativity()
    ensures Initial().creativityLevel == "high"
    ensures Initial().creativityLevel in Creativity.Continuum
  {
  }

  /** Only the two creativity buttons change the creativity: requests, replies, choosing
      a style and starting over all keep it. */
  lemma {:induction false} OnlyButtonsChangeCreativity(s: State, events: seq<Event>)
    requires forall k :: 0 <= k < |events| ==> !events[k].MoreCreative? && !events[k].LessCreative?
    ensures Run(s, events).next.creativityLevel == s.creativityLevel
    decreases |events|
  {
    if events != [] {
      StepCreativity(s, events[0]);
      OnlyButtonsChangeCreativity(Step(s, events[0]).next, events[1..]);
    }
  }

  /** As long as no answer arrives while the style list is shown, an empty selection
      always goes with an empty question. */
  lemma {:induction false} NoOrphanWithoutLateAnswer(s: State, events: seq<Event>)
    requires NoOrphanQuestion(s)
    requires NoLateAnswer(s, events)
    ensures NoOrphanQuestion(Run(s, events).next)
    decreases |events|
  {
    if events != [] {
      var t := Step(s, events[0]);
      if events[0].ChooseStyle? {
        QuestionStyles.CatalogNames();
      }
      assert NoOrphanQuestion(t.next);
      NoOrphanWithoutLateAnswer(t.next, events[1..]);
    }
  }

  /** Counting requests distributes over concatenation. */
  lemma {:induction false} RequestsAppend(a: seq<Effect>, b: seq<Effect>)
    ensures Requests(a + b) == Requests(a) + Requests(b)
    decreases |a|
  {
    if a == [] {
      assert a + b == b;
    } else {
      assert (a + b)[0] == a[0];
      assert (a + b)[1..] == a[1..] + b;
      RequestsAppend(a[1..], b);
    }
  }

  /** The gap: nothing discards a reply whose request was made before "Start over".
      Choosing a style, starting over and then receiving the answer is a possible run;
      it ends on the style list with the answer stored as the question. */
  lemma LateAnswerAfterStartOver(first: string, text: string)
    requires first in QuestionStyles.Names()
    requires text != ""
    ensures var events := [ChooseStyle(first), StartOver, Resolved(Answer(text))];
      Possible(Initial(), 0, events) &&
      Run(Initial(), events).next == State("high", text, "", false) &&
      !NoOrphanQuestion(Run(Initial(), events).next)
  {
    QuestionStyles.CatalogNameNonEmpty(first);
    var e1, e2, e3 := ChooseStyle(first), StartOver, Resolved(Answer(text));
    var s0, s1 := Initial(), State("high", "", first, true);
    var s2, s3 := State("high", "", "", false), State("high", text, "", false);
    assert Step(s0, e1).next == s1 && Requests(Step(s0, e1).effects) == 1 by { ChoosingAStyle(s0, first); }
    assert Step(s1, e2) == Transition(s2, []);
    assert Step(s2, e3).next == s3 && Requests(Step(s2, e3).effects) == 0 by { ReplySettles(s2, Answer(text)); }
    assert Run(s2, [e3]).next == s3 && Possible(s2, 1, [e3]) by { assert [e3][1..] == []; }
    assert Run(s1, [e2, e3]).next == s3 && Possible(s1, 1, [e2, e3]) by { assert [e2, e3][1..] == [e3]; }
    assert Run(s0, [e1, e2, e3]).next == s3 && Possible(s0, 0, [e1, e2, e3]) by {
      assert [e1, e2, e3][1..] == [e2, e3];
    }
  }

  /** After such a late answer, choosing a style is offered, and it shows the stale
      question under the newly chosen style while the new request is in flight. */
  lemma StaleQuestionUnderNewStyle(second: string, text: string)
    requires second in QuestionStyles.Names()
    ensures var late := State("high", text, "", false);
      Offered(late, ChooseStyle(second)) &&
      ViewOf(Step(late, ChooseStyle(second)).next) == QuestionDetail(second, text, "high") &&
      Step(late, ChooseStyle(second)).next.isLoading
  {
    QuestionStyles.CatalogNameNonEmpty(second);
    ChoosingAStyle(State("high", text, "", false), second);
  }

  /** Nothing limits the requests in flight to one: "Generate New" can be pressed while
      the first request is outstanding, and both are sent. */
  lemma RequestsCanOverlap(name: string)
    requires name in QuestionStyles.Names()
    ensures var events := [ChooseStyle(name), GenerateNew];
      Possible(Initial(), 0, events) && Requests(Run(Initial(), events).effects) == 2
  {
    QuestionStyles.CatalogNameNonEmpty(name);
    var e1, e2 := ChooseStyle(name), GenerateNew;
    var s0, s1 := Initial(), State("high", "", name, true);
    var t1, t2 := Step(s0, e1), Step(s1, e2);
    assert t1.next == s1 && Requests(t1.effects) == 1 by { ChoosingAStyle(s0, name); }
    assert Requests(t2.effects) == 1 by { AskQuestionKeepsQuestion(s1); }
    assert Run(s1, [e2]) == Transition(t2.next, t2.effects + []) && Possible(s1, 1, [e2]) by {
      assert [e2][1..] == [];
    }
    assert Run(s0, [e1, e2]).effects == t1.effects + (t2.effects + []) && Possible(s0, 0, [e1, e2]) by {
      assert [e1, e2][1..] == [e2];
    }
    assert t2.effects + [] == t2.effects;
    RequestsAppend(t1.effects, t2.effects);
  }

  /** Choosing a catalog style on a fresh session and receiving an answer: one request
      with that style's prompt at the default creativity, then the answer is copied once
      and success is announced once; the session shows the answer under the style and
      is no longer loading. */
  lemma FirstAnswer(name: string, text: string)
    requires name in QuestionStyles.Names()
    ensures var events := [ChooseStyle(name), Resolved(Answer(text))];
      Possible(Initial(), 0, events) &&
      Run(Initial(), events).effects == [
        Ask(Prompt.BuildPrompt(name), "high"),
        CopyToClipboard(text),
        ShowToast(Success, SuccessTitle, SuccessMessage)] &&
      ViewOf(Run(Initial(), events).next) == QuestionDetail(name, text, "high") &&
      !Run(Initial(), events).next.isLoading
  {
    QuestionStyles.CatalogNameNonEmpty(name);
    var e1, e2 := ChooseStyle(name), Resolved(Answer(text));
    var s0, s1, s2 := Initial(), State("high", "", name, true), State("high", text, name, false);
    var t1, t2 := Step(s0, e1), Step(s1, e2);
    assert t1 == Transition(s1, [Ask(Prompt.BuildPrompt(name), "high")]) by { ChoosingAStyle(s0, name); }
    assert Requests(t1.effects) == 1;
    assert t2 == Transition(s2, [CopyToClipboard(text), ShowToast(Success, SuccessTitle, SuccessMessage)]);
    assert Run(s1, [e2]) == Transition(s2, t2.effects + []) && Possible(s1, 1, [e2]) by {
      assert [e2][1..] == [];
    }
    assert Run(s0, [e1, e2]) == Transition(s2, t1.effects + (t2.effects + [])) && Possible(s0, 0, [e1, e2]) by {
      assert [e1, e2][1..] == [e2];
    }
    assert t1.effects + (t2.effects + []) == [
        Ask(Prompt.BuildPrompt(name), "high"),
        CopyToClipboard(text),
        ShowToast(Success, SuccessTitle, SuccessMessage)];
  }

  /** Choosing a catalog style on a fresh session and receiving an error: the session
      stops loading with an empty question, and the failure is announced with the
      error's message. */
  lemma FirstFailure(name: string, message: string)
    requires name in QuestionStyles.Names()
    ensures var events := [ChooseStyle(name), Resolved(Error(message))];
      Possible(Initial(), 0, events) &&
      Run(Initial(), events).next == State("high", "", name, false) &&
      Run(Initial(), events).effects == [
        Ask(Prompt.BuildPrompt(name), "high"),
        ShowToast(Failure, FailureTitle, message)]
  {
    QuestionStyles.CatalogNameNonEmpty(name);
    var e1, e2 := ChooseStyle(name), Resolved(Error(message));
    var s0, s1, s2 := Initial(), State("high", "", name, true), State("high", "", name, false);
    var t1, t2 := Step(s0, e1), Step(s1, e2);
    assert t1 == Transition(s1, [Ask(Prompt.BuildPrompt(name), "high")]) by { ChoosingAStyle(s0, name); }
    assert Requests(t1.effects) == 1;
    assert t2 == Transition(s2, [ShowToast(Failure, FailureTitle, message)]);
    assert Run(s1, [e2]) == Transition(s2, t2.effects + []) && Possible(s1, 1, [e2]) by {
      assert [e2][1..] == [];
    }
    assert Run(s0, [e1, e2]) == Transition(s2, t1.effects + (t2.effects + [])) && Possible(s0, 0, [e1, e2]) by {
      assert [e1, e2][1..] == [e2];
    }
    assert t1.effects + (t2.effects + []) == [
        Ask(Prompt.BuildPrompt(name), "high"),
        ShowToast(Failure, FailureTitle, message)];
  }
}
