/**
 The sight-word drill as a pure state machine: the fixed word list, the
 messages the game shows, the state `App` keeps (the index of the word on
 screen and the message under it), and what each of the three buttons does
 to that state and to the speech output.

 The machine is stated for any word list; `Words` is the list the game
 ships with. One button press is one atomic transition. The React handlers read the
 state as it was when the button was pressed and their `setMessage` calls
 are batched, so when a handler sets the message twice the later value is
 the one shown.
 */
module DrillSpec {

  /** The words drilled, in the order they are shown. */
  const Words: seq<string> := [
    "the", "and", "a", "to", "in", "is", "you", "that", "it", "of",
    "for", "on", "are", "as", "with", "his", "they", "I", "at", "be"
  ]

  /** The messages the game can show under the word. */
  datatype Message =
    | Blank       // nothing shown: at the start and after Repeat
    | GreatJob    // after a Correct press that moves on to the next word
    | AllDone     // after a Correct press on the last word
    | KeepTrying  // after an Incorrect press

  /** The text the game displays for each message. */
  function Text(m: Message): string {
    match m
    case Blank => ""
    case GreatJob => "Great job!"
    case AllDone => "You've finished all the words! Amazing work!"
    case KeepTrying => "That's okay, keep trying!"
  }

  /** The state `App` keeps: `currentIndex` and `message`. */
  datatype State = State(index: nat, message: Message)

  /** The three buttons. */
  datatype Event = Correct | Incorrect | Repeat

  /** What one press leaves behind: the next state, and the words handed to
      speech synthesis during the press, in order. */
  datatype Transition = Transition(next: State, said: seq<string>)

  /** The state the game starts in: the first word, no message. */
  const Initial: State := State(0, Blank)

  /** Position of the last word; Correct does not advance past it. */
  function LastIndex(words: seq<string>): int {
    |words| - 1
  }

  /** The index names a word of the list, so the word on screen exists. */
  predicate Valid(words: seq<string>, s: State) {
    s.index < |words|
  }

  /** The completion message is only ever shown on the last word. */
  predicate Consistent(words: seq<string>, s: State) {
    Valid(words, s) && (s.message == AllDone ==> s.index == LastIndex(words))
  }

  /** The word on screen. */
  function CurrentWord(words: seq<string>, s: State): (w: string)
    requires Valid(words, s)
    ensures w in words
  {
    words[s.index]
  }

  /** The most recently spoken word, if any word was spoken, is the word on screen. */
  predicate EndsOnCurrent(words: seq<string>, log: seq<string>, s: State)
    requires Valid(words, s)
  {
    log != [] ==> log[|log| - 1] == CurrentWord(words, s)
  }

  /** The Correct button: moves to the next word and speaks it, or, on the
      last word, shows the completion message and stays. */
  function OnCorrect(words: seq<string>, s: State): (t: Transition)
    requires Valid(words, s)
    ensures Valid(words, t.next) && s.index <= t.next.index
    ensures t.next.index != s.index <==> s.index < LastIndex(words)
    ensures EndsOnCurrent(words, t.said, t.next)
  {
    if s.index < |words| - 1 then
      Transition(State(s.index + 1, GreatJob), [words[s.index + 1]])
    else
      Transition(State(s.index, AllDone), [])
  }

  /** The Incorrect button: shows the retry message. */
  function OnIncorrect(words: seq<string>, s: State): (t: Transition)
    requires Valid(words, s)
    ensures Valid(words, t.next) && t.next.index == s.index
    ensures t.said == []
  {
    Transition(State(s.index, KeepTrying), [])
  }

  /** The Repeat button: clears the message and speaks the word on screen again. */
  function OnRepeat(words: seq<string>, s: State): (t: Transition)
    requires Valid(words, s)
    ensures Valid(words, t.next) && t.next.index == s.index
    ensures t.said == [CurrentWord(words, t.next)]
  {
    Transition(State(s.index, Blank), [CurrentWord(words, s)])
  }

  /** One press of any button. */
  function Step(words: seq<string>, s: State, e: Event): (t: Transition)
    requires Valid(words, s)
    ensures Valid(words, t.next) && s.index <= t.next.index
  {
    match e
    case Correct => OnCorrect(words, s)
    case Incorrect => OnIncorrect(words, s)
    case Repeat => OnRepeat(words, s)
  }

  /** A sequence of presses, one after the other: the final state and
      everything spoken along the way. */
  function Run(words: seq<string>, s: State, events: seq<Event>): (t: Transition)
    requires Valid(words, s)
    ensures Valid(words, t.next) && s.index <= t.next.index
    decreases |events|
  {
    if events == [] then
      Transition(s, [])
    else
      var first := Step(words, s, events[0]);
      var rest := Run(words, first.next, events[1..]);
      Transition(rest.next, first.said + rest.said)
  }

  /** `n` presses of Correct. */
  function Presses(n: nat): (events: seq<Event>)
    ensures |events| == n && forall i :: 0 <= i < n ==> events[i] == Correct
  {
    if n == 0 then [] else [Correct] + Presses(n - 1)
  }

  function Min(a: int, b: int): int {
    if a <= b then a else b
  }
}
