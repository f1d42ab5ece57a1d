# Sight-word drill: a verified model

The sight-word game shows one word at a time from a fixed list of twenty
words. The child presses one of three buttons:

- **Correct** moves on to the next word and speaks it. On the last word it
  shows the completion message instead and stays on that word.
- **Incorrect** shows a retry message.
- **Repeat** clears the message and speaks the word on screen again.

The `App` component keeps two pieces of state: `currentIndex` and `message`.
This project models that state and the three handlers in three modules:

- `DrillSpec` (`drill_spec.dfy`) is the drill as a pure state machine. It is
  stated for any word list, and `Words` is the list the game ships with. It
  holds the transition of each button, `Step` for any one press, and `Run`
  for a sequence of presses. Each transition returns the next state and the
  words handed to speech synthesis.
- `DrillProperties` (`drill_properties.dfy`) holds the lemmas about that
  machine. They cover the effect of each button, the bound on the index, and
  what any sequence of presses does: it never moves the index back, it moves
  one word per Correct press up to the last word, and it keeps the word
  spoken last equal to the word on screen.
- `DrillApp` (`drill_app.dfy`) has the class `Drill`. Its fields `index` and
  `message` are changed in place by `HandleCorrect`, `HandleIncorrect` and
  `HandleRepeat`, and the ghost field `spoken` logs every call to
  `SpeakWord`. Each handler's postcondition states the new state and log as
  the matching transition of `DrillSpec`. `Valid()` is kept by every handler.

Each button press is one atomic transition on the state as it was when the
button was pressed. The handlers read the state through their closure, and
React batches the `setMessage` calls. So when `handleCorrect` on the last
word sets "Great job!" and then the completion text, the completion text is
shown. `HandleCorrect` makes the same two assignments in the same order.

The message is one of four values (`Blank`, `GreatJob`, `AllDone`,
`KeepTrying`), because the handlers only ever set those four. `Text` gives
the string shown for each value, and `MessageTexts` proves that the four
strings differ. Some versions of the game keep a retry flag, but
`src/App.tsx` has none, so the model has none either.

## Model

| member | source | states |
|---|---|---|
| `DrillSpec.CurrentWord` | src/App.tsx:13 | the word on screen is always an element of the word list, given the index bound |
| `DrillSpec.OnCorrect` | src/App.tsx:15-23 | Correct keeps the index in bounds and never decreases it; it moves the index exactly when the word is not the last one; anything it speaks ends on the new word on screen |
| `DrillSpec.OnIncorrect` | src/App.tsx:25-27 | Incorrect keeps the index in bounds, leaves it unchanged and speaks nothing |
| `DrillSpec.OnRepeat` | src/App.tsx:29-32 | Repeat leaves the index unchanged and speaks exactly the word on screen, once |
| `DrillSpec.Step` | src/App.tsx:15-32 | any press keeps the index within the word list and never decreases it |
| `DrillProperties.StepInvariants` | src/App.tsx:15-32 | only Correct moves the index; a press keeps the completion message on the last word; the word it speaks last is the word on screen; a press that speaks nothing does not move the index |
| `DrillSpec.Run` | src/App.tsx:10-32 | over any sequence of presses the index stays within the word list and never ends below where it started |
| `DrillProperties.InitialState` | src/App.tsx:5-11 | the shipped list has twenty words; the game starts on index 0 ("the") with an empty message, which is a valid, consistent state |
| `DrillProperties.MessageTexts` | src/App.tsx:16-30 | the four messages the handlers set have four different texts, and the blank message is the empty string |
| `DrillProperties.CorrectAdvances` | src/App.tsx:16-19 | Correct before the last word adds exactly one to the index, shows "Great job!", and speaks exactly the new word on screen |
| `DrillProperties.CorrectOnLastWord` | src/App.tsx:16-22 | Correct on the last word keeps the index, shows the completion text (the later message wins), speaks nothing, and pressing it again gives the same result |
| `DrillProperties.IncorrectKeepsWord` | src/App.tsx:25-27 | Incorrect keeps the word on screen, shows "That's okay, keep trying!" and speaks nothing |
| `DrillProperties.RepeatReplaysWord` | src/App.tsx:29-32 | Repeat keeps the index, clears the message and speaks the current word once |
| `DrillProperties.RunAppend` | src/App.tsx:15-32 | pressing one sequence of buttons and then another gives the same final state and the same spoken words as pressing their concatenation |
| `DrillProperties.NeverDecreases` | src/App.tsx:17-18 | the index after any prefix of a sequence of presses lies between the starting index and the final index |
| `DrillProperties.RunIndex` | src/App.tsx:17-18 | the final index is the starting index plus the number of Correct presses, capped at the last word |
| `DrillProperties.WithoutCorrectStays` | src/App.tsx:25-32 | presses without a Correct never change the word on screen |
| `DrillProperties.RunKeepsConsistent` | src/App.tsx:15-27 | over any sequence of presses the completion message is only ever shown on the last word |
| `DrillProperties.LastSpokenIsOnScreen` | src/App.tsx:15-32 | after any sequence of presses, the word spoken most recently is the word on screen |
| `DrillProperties.RunPressesIndex` | src/App.tsx:17-18 | n Correct presses move on n words, stopping at the last word |
| `DrillProperties.RunPressesUpcoming` | src/App.tsx:17-19 | n Correct presses speak the words they move on to, one per press, and nothing once on the last word |
| `DrillProperties.RunPressesSaid` | src/App.tsx:17-19 | n Correct presses speak the words after the current one, each once and in list order, up to the last word |
| `DrillProperties.RunPressesMessage` | src/App.tsx:16-21 | after n > 0 Correct presses the message is "Great job!" if none of them was made on the last word, and the completion text otherwise |
| `DrillProperties.ReachLastWord` | src/App.tsx:10-23 | from the start, Correct presses reach the last word exactly when there are at least `|words| - 1` of them; those speak every word after the first and leave "Great job!"; one more shows the completion text |
| `DrillProperties.ShippedListFinishes` | src/App.tsx:5-23 | with the shipped list, 19 Correct presses show "be" with praise, and a 20th shows the completion text |
| `DrillApp.Drill.constructor` | src/App.tsx:10-11 | the game starts on the first word with no message, having spoken nothing, in a valid state |
| `DrillApp.Drill.CurrentWord` | src/App.tsx:13 | the word on screen is an element of the shipped list |
| `DrillApp.Drill.SpeakWord` | src/App.tsx:34-37 | speaking a word appends exactly that word to the log and changes nothing else |
| `DrillApp.Drill.HandleCorrect` | src/App.tsx:15-23 | the new index, message and speech log are those of the Correct transition applied to the old state; validity is kept |
| `DrillApp.Drill.HandleIncorrect` | src/App.tsx:25-27 | the new state and log are those of the Incorrect transition; validity is kept |
| `DrillApp.Drill.HandleRepeat` | src/App.tsx:29-32 | the new state and log are those of the Repeat transition; validity is kept |

## Left out

- The rendering (`WordDisplay`, `ControlButtons`, the JSX tree, the Fluent UI theme and the inline styles, src/App.tsx:39-83) has no behaviour to verify.
- Speech synthesis (`SpeechSynthesisUtterance` and `window.speechSynthesis.speak`, src/App.tsx:35-36) is a browser call. It is modelled only as appending the word to the ghost log `spoken`, and audio playback itself is not modelled.
- React's `useState` machinery, re-render scheduling and stale closures are not modelled. Each press is one atomic transition on the state current at the press.
- Fetching the word list, shuffling it, and other audio back ends do not occur in `src/App.tsx`, so they are not part of this model.
- `message` is modelled as one of the four values the handlers set, not as an arbitrary string. `Text` maps each value to its displayed string.
