/**
 The `App` component's state and its three button handlers, as a class whose
 methods change the state in place. Each handler is specified by the
 matching transition of `DrillSpec`, so what is proved about the state
 machine holds of the object after every press.
 */
module DrillApp {
  import opened DrillSpec

  class Drill {
    /** `currentIndex`: the position of the word on screen. */
    var index: nat
    /** `message`: what is shown under the word. */
    var message: Message
    /** Every word handed to speech synthesis so far, oldest first. */
    ghost var spoken: seq<string>

    /** The state as the pure machine sees it. */
    function Snapshot(): State
      reads this
    {
      State(index, message)
    }

    /** The index names a word of the shipped list, the completion message is
        only shown on the last word, and the word last spoken is the one on
        screen. */
    ghost predicate Valid()
      reads this
    {
      Consistent(Words, Snapshot()) && EndsOnCurrent(Words, spoken, Snapshot())
    }

    /** The first render: the first word, no message, nothing spoken yet. */
    constructor ()
      ensures Valid()
      ensures Snapshot() == Initial && spoken == []
    {
      index := 0;
      message := Blank;
      spoken := [];
    }

    /** `currentWord`: the word on screen. */
    function CurrentWord(): (w: string)
      reads this
      requires Valid()
      ensures w in Words
    {
      DrillSpec.CurrentWord(Words, Snapshot())
    }

    /** `speakWord`: hands one word to speech synthesis; only the log of
        spoken words is kept. */
    method SpeakWord(word: string)
      modifies this`spoken
      ensures spoken == old(spoken) + [word]
    {
      spoken := spoken + [word];
    }

    /** `handleCorrect`: praise, then move on to the next word and speak it;
        on the last word the completion message replaces the praise. */
    method HandleCorrect()
      requires Valid()
      modifies this
      ensures Valid()
      ensures Snapshot() == OnCorrect(Words, old(Snapshot())).next
      ensures spoken == old(spoken) + OnCorrect(Words, old(Snapshot())).said
    {
      var current := index;
      message := GreatJob;
      if current < |Words| - 1 {
        index := current + 1;
        SpeakWord(Words[current + 1]);
      } else {
        message := AllDone;
      }
    }

    /** `handleIncorrect`: the retry message. */
    method HandleIncorrect()
      requires Valid()
      modifies this
      ensures Valid()
      ensures Snapshot() == OnIncorrect(Words, old(Snapshot())).next
      ensures spoken == old(spoken) + OnIncorrect(Words, old(Snapshot())).said
    {
      message := KeepTrying;
    }

    /** `handleRepeat`: clear the message and speak the word on screen again. */
    method HandleRepeat()
      requires Valid()
      modifies this
      ensures Valid()
      ensures Snapshot() == OnRepeat(Words, old(Snapshot())).next
      ensures spoken == old(spoken) + OnRepeat(Words, old(Snapshot())).said
    {
      var word := CurrentWord();
      message := Blank;
      SpeakWord(word);
    }
  }
}
