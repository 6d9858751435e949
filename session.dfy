/** The session controller of its-tutor.py: the session state (lines
    15-22), the question draw at the start of each pass (142-143) and the
    submit block (162-177), over the progress table. */
module Session {

  import opened Wrappers
  import opened Questions
  import opened ProgressStore

  /** The counters after one scored submission. */
  function Tally(p: Progress, scored: bool): (r: Progress)
    ensures r.correct + r.incorrect == p.correct + p.incorrect + 1
    ensures r.correct >= p.correct && r.incorrect >= p.incorrect
    ensures scored <==> r.correct == p.correct + 1
    ensures scored <==> r.incorrect == p.incorrect
  {
    if scored then Progress(p.correct + 1, p.incorrect)
    else Progress(p.correct, p.incorrect + 1)
  }

  /** After a submission the next question is hard exactly when the
      updated counters are ahead: from a tie (0/0 included) or a lead of
      one, exactly when the answer was scored correct. */
  lemma DifficultyAfterTally(p: Progress, scored: bool, pick: nat)
    ensures var r := Tally(p, scored);
      (NextQuestion(r.correct, r.incorrect, pick) in Hard
       <==> if scored then p.correct >= p.incorrect else p.correct > p.incorrect + 1)
    ensures p.correct == p.incorrect || p.correct == p.incorrect + 1 ==>
      (NextQuestion(Tally(p, scored).correct, Tally(p, scored).incorrect, pick) in Hard <==> scored)
  {
  }

  /** What triggered a pass of `main`. Streamlit reruns the script once per
      user event, and a button reads as pressed only in the run its own
      click triggers, so a run sees at most one of the two buttons. */
  datatype Event = Refresh | SpeechClick(transcript: string) | SubmitClick

  class Tutor {
    var correct: nat
    var incorrect: nat
    var question: Option<Question>
    var store: Table

    /** The current question, when there is one, was drawn by the selection
        rule from the current counters. */
    ghost predicate Valid()
      reads this
    {
      question.Some? ==> question.value in Pool(correct, incorrect)
    }

    /** The counters as one pair. */
    function Counters(): Progress
      reads this
    {
      Progress(correct, incorrect)
    }

    /** Session start: both counters 0 and no question. The counters are
        not read from `persisted`. */
    constructor Init(persisted: Table)
      ensures Valid()
      ensures correct == 0 && incorrect == 0 && question == None
      ensures store == persisted
    {
      correct, incorrect, question := 0, 0, None;
      store := persisted;
    }

    /** init_db on the session's table. */
    method InitDb()
      requires Valid()
      modifies this
      ensures Valid()
      ensures store == ProgressStore.Init(old(store))
      ensures correct == old(correct) && incorrect == old(incorrect) && question == old(question)
    {
      store := ProgressStore.Init(store);
    }

    /** get_progress on the session's table; changes nothing. */
    method GetProgress() returns (p: Progress)
      ensures RowId in store ==> p == store[RowId]
      ensures RowId !in store ==> p == Zero
    {
      p := Get(store);
    }

    /** Draw a question if there is none; keep the current one otherwise. */
    method EnsureQuestion(pick: nat)
      requires Valid()
      modifies this
      ensures Valid() && question.Some?
      ensures old(question).Some? ==> question == old(question)
      ensures old(question).None? ==> question == Some(NextQuestion(correct, incorrect, pick))
      ensures correct == old(correct) && incorrect == old(incorrect) && store == old(store)
    {
      if question.None? {
        question := Some(NextQuestion(correct, incorrect, pick));
      }
    }

    /** The submit block: score the answer, bump exactly one counter, write
        the counters through to row 1, draw the next question from the
        updated counters. */
    method Submit(userAnswer: string, pick: nat) returns (scored: bool)
      requires Valid() && question.Some?
      modifies this
      ensures Valid() && question.Some?
      ensures scored <==> userAnswer == AnswerText(old(question).value.answer)
      ensures Counters() == Tally(old(Counters()), scored)
      ensures correct + incorrect == old(correct) + old(incorrect) + 1
      ensures store == Update(old(store), Counters())
      ensures RowId in old(store) ==> Get(store) == Counters()
      ensures question == Some(NextQuestion(correct, incorrect, pick))
    {
      scored := Scores(userAnswer, question.value);
      if scored {
        correct := correct + 1;
      } else {
        incorrect := incorrect + 1;
      }
      store := Update(store, Progress(correct, incorrect));
      GetAfterUpdate(old(store), Progress(correct, incorrect));
      question := Some(NextQuestion(correct, incorrect, pick));
    }

    /** One pass of `main`: initialise the table, read the progress for the
        sidebar, draw a question if there is none, then handle the event.
        A speech click only assigns the transcript to the local answer,
        which is displayed and then dropped at the end of the run; a submit
        click scores the widget's value. The widget value, the event and the
        two random picks are inputs. */
    method Pass(widgetValue: string, event: Event, drawPick: nat, nextPick: nat)
      returns (shown: Progress, heard: Option<string>, scored: Option<bool>)
      requires Valid()
      modifies this
      ensures Valid() && question.Some? && RowId in store
      ensures shown == Get(old(store))
      ensures heard == (if event.SpeechClick? then Some(event.transcript) else None)
      ensures var asked := if old(question).Some? then old(question).value
                           else NextQuestion(old(correct), old(incorrect), drawPick);
              if event.SubmitClick? then
                scored == Some(Scores(widgetValue, asked))
                && Counters() == Tally(old(Counters()), scored.value)
                && store == ProgressStore.Init(old(store))[RowId := Counters()]
                && question == Some(NextQuestion(correct, incorrect, nextPick))
              else
                scored == None
                && Counters() == old(Counters())
                && store == ProgressStore.Init(old(store))
                && question == Some(asked)
    {
      InitDb();
      shown := GetProgress();
      GetAfterInit(old(store));
      EnsureQuestion(drawPick);
      var userAnswer := widgetValue;
      heard := None;
      if event.SpeechClick? {
        userAnswer := event.transcript;
        heard := Some(userAnswer);
      }
      if event.SubmitClick? {
        var ok := Submit(userAnswer, nextPick);
        scored := Some(ok);
      } else {
        scored := None;
      }
    }
  }

  /** From a fresh session, whatever the table held: a correct answer to
      the first question gives 1/0, writes (1, 0) to row 1 and moves to the
      hard pool. Previously stored progress is overwritten. */
  method CorrectFirstAnswer(persisted: Table, drawPick: nat, nextPick: nat)
    returns (scored: bool, stored: Progress, next: Question)
    ensures scored && stored == Progress(1, 0) && next in Hard
  {
    var t := new Tutor.Init(persisted);
    t.InitDb();
    t.EnsureQuestion(drawPick);
    scored := t.Submit(AnswerText(t.question.value.answer), nextPick);
    stored := t.GetProgress();
    next := t.question.value;
    NextQuestionIsHardIff(1, 0, nextPick);
  }

  /** A failure message typed into the text field of a fresh session's
      first question (one without choices, so a text field is shown) is
      scored wrong, gives 0/1 and keeps the easier pools. */
  method TypedFailureMessageFirstAnswer(persisted: Table, drawPick: nat, nextPick: nat)
    returns (scored: Option<bool>, stored: Progress, next: Question)
    requires NextQuestion(0, 0, drawPick).choices.None?
    ensures scored == Some(false) && stored == Progress(0, 1) && next in Easy + MultipleChoice
  {
    var t := new Tutor.Init(persisted);
    var shown, heard;
    shown, heard, scored := t.Pass(NotUnderstood, SubmitClick, drawPick, nextPick);
    SpeechFailureNeverScores(t.question.value);
    stored := t.GetProgress();
    next := t.question.value;
    NextQuestionIsHardIff(0, 1, nextPick);
  }

  /** A spoken answer never reaches scoring: even when the transcript is the
      expected answer to the question asked, the Submit run that follows
      scores the text field, still at its default "", on that same question
      and counts the answer wrong. */
  method SpokenAnswerIsNotScored(persisted: Table, nextPick: nat)
    returns (asked: Question, heard: Option<string>, current: Question,
             scored: Option<bool>, stored: Progress)
    ensures heard.Some? && Scores(heard.value, asked)
    ensures current == asked
    ensures scored == Some(Scores("", current))
    ensures scored == Some(false) && stored == Progress(0, 1)
  {
    var t := new Tutor.Init(persisted);
    var shown, ignored;
    var expected := AnswerText(NextQuestion(0, 0, 0).answer);
    shown, heard, ignored := t.Pass("", SpeechClick(expected), 0, 0);
    asked := t.question.value;
    current := t.question.value;
    var none;
    shown, none, scored := t.Pass("", SubmitClick, 0, nextPick);
    stored := t.GetProgress();
  }
}
