/** The ice-breaker command as an object: the four state variables it holds, updated
    in place by its handlers, and the calls it has made into the host so far. Each
    handler is proved to perform the transition `Session` defines for it, so every
    property proved there of states and runs holds of the object too. */
module Component {
  import Creativity
  import Prompt
  import Session

  class Command {
    var creativityLevel: string
    var question: string
    var selectedQuestionStyle: string
    var isLoading: bool
    /** The calls made into the host (generation requests, clipboard, toasts), oldest first. */
    var effects: seq<Session.Effect>

    /** The state variables as a value. */
    function Snapshot(): Session.State
      reads this
    {
      Session.State(creativityLevel, question, selectedQuestionStyle, isLoading)
    }

    /** The creativity is always one of the levels of the scale. */
    ghost predicate Valid()
      reads this
    {
      creativityLevel in Creativity.Continuum
    }

    /** A fresh command: default creativity, no question, no style, not loading. */
    constructor ()
      ensures Valid()
      ensures Snapshot() == Session.Initial() && effects == []
    {
      creativityLevel := Creativity.DefaultLevel;
      question := "";
      selectedQuestionStyle := "";
      isLoading := false;
      effects := [];
    }

    /** `askQuestion`: set the loading flag and send the prompt for the selected style. */
    method AskQuestion()
      requires Valid()
      modifies this
      ensures Valid()
      ensures Snapshot() == Session.AskQuestion(old(Snapshot())).next
      ensures effects == old(effects) + Session.AskQuestion(old(Snapshot())).effects
      ensures isLoading && question == old(question)
      ensures effects == old(effects) + [Session.Ask(Prompt.BuildPrompt(selectedQuestionStyle), creativityLevel)]
    {
      isLoading := true;
      var prompt := Prompt.BuildPrompt(selectedQuestionStyle);
      effects := effects + [Session.Ask(prompt, creativityLevel)];
    }

    /** The success continuation: store the answer, stop loading, copy it and announce it. */
    method OnAnswer(text: string)
      requires Valid()
      modifies this
      ensures Valid()
      ensures Snapshot() == Session.OnAnswer(old(Snapshot()), text).next
      ensures effects == old(effects) + Session.OnAnswer(old(Snapshot()), text).effects
      ensures question == text && !isLoading
      ensures selectedQuestionStyle == old(selectedQuestionStyle) && creativityLevel == old(creativityLevel)
    {
      question := text;
      isLoading := false;
      effects := effects + [
        Session.CopyToClipboard(text),
        Session.ShowToast(Session.Success, Session.SuccessTitle, Session.SuccessMessage)];
    }

    /** The failure continuation: stop loading and announce the error's message. */
    method OnError(message: string)
      requires Valid()
      modifies this
      ensures Valid()
      ensures Snapshot() == Session.OnError(old(Snapshot()), message).next
      ensures effects == old(effects) + Session.OnError(old(Snapshot()), message).effects
      ensures !isLoading && question == old(question)
    {
      isLoading := false;
      effects := effects + [Session.ShowToast(Session.Failure, Session.FailureTitle, message)];
    }

    /** `clearQuestion`. */
    method ClearQuestion()
      requires Valid()
      modifies this
      ensures Valid()
      ensures Snapshot() == Session.ClearQuestion(old(Snapshot())) && effects == old(effects)
    {
      question := "";
      isLoading := false;
    }

    /** `clearQuestionStyle`. The effect watching the style runs and, the style being
        empty, does nothing. */
    method ClearQuestionStyle()
      requires Valid()
      modifies this
      ensures Valid()
      ensures Snapshot() == Session.ClearQuestionStyle(old(Snapshot())) && effects == old(effects)
    {
      selectedQuestionStyle := "";
      isLoading := false;
    }

    /** `clear` ("Start over"). */
    method Clear()
      requires Valid()
      modifies this
      ensures Valid()
      ensures Snapshot() == Session.Clear(old(Snapshot())) && effects == old(effects)
      ensures question == "" && selectedQuestionStyle == "" && !isLoading
      ensures creativityLevel == old(creativityLevel)
    {
      ClearQuestion();
      ClearQuestionStyle();
    }

    /** The "Ask" action of a style: set the selected style; the effect watching it asks
        for a question when the value changed to a non-empty one. */
    method SetSelectedQuestionStyle(name: string)
      requires Valid()
      modifies this
      ensures Valid()
      ensures Snapshot() == Session.SetSelectedQuestionStyle(old(Snapshot()), name).next
      ensures effects == old(effects) + Session.SetSelectedQuestionStyle(old(Snapshot()), name).effects
    {
      var previous := selectedQuestionStyle;
      selectedQuestionStyle := name;
      if name != previous && name != "" {
        AskQuestion();
      }
    }

    /** `increaseCreativityLevel`: look the level up and move to the next entry, if any. */
    method IncreaseCreativityLevel()
      requires Valid()
      modifies this
      ensures Valid()
      ensures Snapshot() == Session.IncreaseCreativityLevel(old(Snapshot())) && effects == old(effects)
    {
      var index := Creativity.IndexOf(Creativity.Continuum, creativityLevel);
      var next := Creativity.At(Creativity.Continuum, index + 1);
      Creativity.StepsStayOnScale(creativityLevel);
      if Creativity.Truthy(next) {
        creativityLevel := next.value;
      }
    }

    /** `lowerCreativityLevel`: look the level up and move to the previous entry, if any. */
    method LowerCreativityLevel()
      requires Valid()
      modifies this
      ensures Valid()
      ensures Snapshot() == Session.LowerCreativityLevel(old(Snapshot())) && effects == old(effects)
    {
      var index := Creativity.IndexOf(Creativity.Continuum, creativityLevel);
      var next := Creativity.At(Creativity.Continuum, index - 1);
      Creativity.StepsStayOnScale(creativityLevel);
      if Creativity.Truthy(next) {
        creativityLevel := next.value;
      }
    }

    /** One event, delivered to the handler the interface or the request wires it to. */
    method Handle(e: Session.Event)
      requires Valid()
      modifies this
      ensures Valid()
      ensures Snapshot() == Session.Step(old(Snapshot()), e).next
      ensures effects == old(effects) + Session.Step(old(Snapshot()), e).effects
    {
      match e
      case ChooseStyle(name) => SetSelectedQuestionStyle(name);
      case GenerateNew => AskQuestion();
      case StartOver => Clear();
      case MoreCreative => IncreaseCreativityLevel();
      case LessCreative => LowerCreativityLevel();
      case Resolved(Answer(text)) => OnAnswer(text);
      case Resolved(Error(message)) => OnError(message);
    }
  }
}
