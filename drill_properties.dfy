/**
 What the drill promises, stated about the state machine of `DrillSpec`:
 the effect of each button, the bound on the index, and what happens over
 any sequence of presses.
 */
module DrillProperties {
  import opened DrillSpec

  /** The game starts on the first word with no message, and that word exists
      because the shipped list is not empty. */
  lemma InitialState()
    ensures |Words| == 20 && LastIndex(Words) == 19
    ensures Consistent(Words, Initial) && Initial.index == 0 && Initial.message == Blank
    ensures CurrentWord(Words, Initial) == "the"
  {
  }

  /** The four messages are shown as four different texts, so keeping the
      message as one of four values loses nothing of what is displayed. */
  lemma MessageTexts(m1: Message, m2: Message)
    ensures Text(m1) == Text(m2) <==> m1 == m2
    ensures Text(Blank) == ""
  {
  }

  /** Correct before the last word moves on by exactly one word, praises, and
      speaks exactly the new word on screen. */
  lemma CorrectAdvances(words: seq<string>, s: State)
    requires Valid(words, s) && s.index < LastIndex(words)
    ensures OnCorrect(words, s).next.index == s.index + 1
    ensures OnCorrect(words, s).next.message == GreatJob
    ensures OnCorrect(words, s).said == [CurrentWord(words, OnCorrect(words, s).next)]
  {
  }

  /** Correct on the last word stays there, shows the completion message (the
      later of the handler's two messages) and speaks nothing; pressing it
      again changes nothing. */
  lemma CorrectOnLastWord(words: seq<string>, s: State)
    requires Valid(words, s) && s.index == LastIndex(words)
    ensures OnCorrect(words, s) == Transition(State(s.index, AllDone), [])
    ensures OnCorrect(words, OnCorrect(words, s).next) == OnCorrect(words, s)
  {
  }

  /** Incorrect keeps the word on screen, shows the retry message and speaks nothing. */
  lemma IncorrectKeepsWord(words: seq<string>, s: State)
    requires Valid(words, s)
    ensures OnIncorrect(words, s).next == State(s.index, KeepTrying)
    ensures CurrentWord(words, OnIncorrect(words, s).next) == CurrentWord(words, s)
    ensures OnIncorrect(words, s).said == []
  {
  }

  /** Repeat keeps the word on screen, clears the message and speaks that word once. */
  lemma RepeatReplaysWord(words: seq<string>, s: State)
    requires Valid(words, s)
    ensures OnRepeat(words, s).next == State(s.index, Blank)
    ensures OnRepeat(words, s).said == [CurrentWord(words, s)]
  {
  }

  /** Any one press: only Correct moves the index; the completion message
      stays on the last word; the word spoken last is the word on screen, and
      a press that speaks nothing leaves the index where it was. */
  lemma StepInvariants(words: seq<string>, s: State, e: Event)
    requires Valid(words, s)
    ensures Step(words, s, e).next.index != s.index ==> e == Correct
    ensures Consistent(words, s) ==> Consistent(words, Step(words, s, e).next)
    ensures EndsOnCurrent(words, Step(words, s, e).said, Step(words, s, e).next)
    ensures Step(words, s, e).said == [] ==> Step(words, s, e).next.index == s.index
  {
  }

  /** Running two sequences of presses one after the other is running their
      concatenation. */
  lemma {:induction false} RunAppend(words: seq<string>, s: State, a: seq<Event>, b: seq<Event>)
    requires Valid(words, s)
    ensures Run(words, s, a + b).next == Run(words, Run(words, s, a).next, b).next
    ensures Run(words, s, a + b).said == Run(words, s, a).said + Run(words, Run(words, s, a).next, b).said
    decreases |a|
  {
    if a == [] {
      assert a + b == b;
    } else {
      var first := Step(words, s, a[0]);
      assert (a + b)[0] == a[0] && (a + b)[1..] == a[1..] + b;
      var mid := Run(words, first.next, a[1..]);
      var tail := Run(words, mid.next, b);
      var whole := Run(words, first.next, a[1..] + b);
      assert Run(words, s, a) == Transition(mid.next, first.said + mid.said);
      assert Run(words, s, a + b) == Transition(whole.next, first.said + whole.said);
      RunAppend(words, first.next, a[1..], b);
      assert first.said + (mid.said + tail.said) == (first.said + mid.said) + tail.said;
    }
  }

  /** The index never decreases: after any prefix of a sequence of presses it
      is at most what it is at the end. */
  lemma NeverDecreases(words: seq<string>, s: State, events: seq<Event>, k: nat)
    requires Valid(words, s) && k <= |events|
    ensures s.index <= Run(words, s, events[..k]).next.index <= Run(words, s, events).next.index
  {
    assert events == events[..k] + events[k..];
    RunAppend(words, s, events[..k], events[k..]);
  }

  /** Where a sequence of presses ends: each Correct moves on by one word until
      the last word, and nothing else moves. */
  lemma {:induction false} RunIndex(words: seq<string>, s: State, events: seq<Event>)
    requires Valid(words, s)
    ensures Run(words, s, events).next.index == Min(s.index + multiset(events)[Correct], LastIndex(words))
    decreases |events|
  {
    if events != [] {
      assert events == [events[0]] + events[1..];
      RunIndex(words, Step(words, s, events[0]).next, events[1..]);
    }
  }

  /** Presses that never include Correct keep the same word on screen. */
  lemma WithoutCorrectStays(words: seq<string>, s: State, events: seq<Event>)
    requires Valid(words, s) && Correct !in events
    ensures Run(words, s, events).next.index == s.index
  {
    RunIndex(words, s, events);
  }

  /** Every reachable state keeps the completion message to the last word. */
  lemma {:induction false} RunKeepsConsistent(words: seq<string>, s: State, events: seq<Event>)
    requires Consistent(words, s)
    ensures Consistent(words, Run(words, s, events).next)
    decreases |events|
  {
    if events != [] {
      StepInvariants(words, s, events[0]);
      RunKeepsConsistent(words, Step(words, s, events[0]).next, events[1..]);
    }
  }

  /** Speaking more words after a log that ends on the word on screen keeps
      it ending on the word on screen. */
  lemma AppendEndsOnCurrent(words: seq<string>, log: seq<string>, s: State, said: seq<string>, t: State)
    requires Valid(words, s) && Valid(words, t)
    requires EndsOnCurrent(words, log, s) && EndsOnCurrent(words, said, t)
    requires said == [] ==> t.index == s.index
    ensures EndsOnCurrent(words, log + said, t)
  {
    if said != [] {
      assert (log + said)[|log + said| - 1] == said[|said| - 1];
    } else {
      assert log + said == log;
    }
  }

  /** After any sequence of presses, the most recently spoken word is the word
      on screen. */
  lemma {:induction false} LastSpokenIsOnScreen(words: seq<string>, s: State, events: seq<Event>, log: seq<string>)
    requires Valid(words, s) && EndsOnCurrent(words, log, s)
    ensures EndsOnCurrent(words, log + Run(words, s, events).said, Run(words, s, events).next)
    decreases |events|
  {
    if events == [] {
      assert log + Run(words, s, events).said == log;
    } else {
      var first := Step(words, s, events[0]);
      var rest := Run(words, first.next, events[1..]);
      assert Run(words, s, events) == Transition(rest.next, first.said + rest.said);
      StepInvariants(words, s, events[0]);
      AppendEndsOnCurrent(words, log, s, first.said, first.next);
      LastSpokenIsOnScreen(words, first.next, events[1..], log + first.said);
      assert log + first.said + rest.said == log + (first.said + rest.said);
    }
  }

  /** `Presses(n)` holds `n` Correct presses and nothing else. */
  lemma {:induction false} PressesCount(n: nat)
    ensures multiset(Presses(n))[Correct] == n
    decreases n
  {
    if n > 0 {
      PressesCount(n - 1);
      assert Presses(n) == [Correct] + Presses(n - 1);
    }
  }

  /** `n` Correct presses from any valid state move on `n` words, stopping at
      the last one. */
  lemma RunPressesIndex(words: seq<string>, s: State, n: nat)
    requires Valid(words, s)
    ensures Run(words, s, Presses(n)).next.index == Min(s.index + n, LastIndex(words))
  {
    PressesCount(n);
    RunIndex(words, s, Presses(n));
  }

  /** A run of consecutive words splits into its first word and the rest. */
  lemma SliceFirst(words: seq<string>, i: nat, j: nat)
    requires i < j <= |words|
    ensures words[i .. j] == [words[i]] + words[i + 1 .. j]
  {
  }

  /** `n > 0` Correct presses are one Correct press followed by `n - 1` more. */
  lemma PressesStep(words: seq<string>, s: State, n: nat)
    requires Valid(words, s) && n > 0
    ensures Run(words, s, Presses(n)).next == Run(words, OnCorrect(words, s).next, Presses(n - 1)).next
    ensures Run(words, s, Presses(n)).said == OnCorrect(words, s).said + Run(words, OnCorrect(words, s).next, Presses(n - 1)).said
  {
    assert Presses(n)[0] == Correct && Presses(n)[1..] == Presses(n - 1);
  }

  /** The words that `n` Correct presses on index `i` move on to, one by one:
      the next word while there is one, and nothing once on the last word. */
  function Upcoming(words: seq<string>, i: nat, n: nat): seq<string>
    requires i < |words|
    decreases n
  {
    if n == 0 || i == |words| - 1 then [] else [words[i + 1]] + Upcoming(words, i + 1, n - 1)
  }

  /** The words that come up are the run of words after index `i`, up to `n`
      of them and no further than the last word. */
  lemma {:induction false} UpcomingIsSlice(words: seq<string>, i: nat, n: nat)
    requires i < |words|
    ensures Upcoming(words, i, n) == words[i + 1 .. Min(i + n, LastIndex(words)) + 1]
    decreases n
  {
    if n != 0 && i != |words| - 1 {
      UpcomingIsSlice(words, i + 1, n - 1);
      SliceFirst(words, i + 1, Min(i + n, LastIndex(words)) + 1);
    }
  }

  /** `n` Correct presses speak exactly the upcoming words. */
  lemma {:induction false} RunPressesUpcoming(words: seq<string>, s: State, n: nat)
    requires Valid(words, s)
    ensures Run(words, s, Presses(n)).said == Upcoming(words, s.index, n)
    decreases n
  {
    if n == 0 {
      assert Presses(n) == [];
    } else {
      PressesStep(words, s, n);
      RunPressesUpcoming(words, OnCorrect(words, s).next, n - 1);
    }
  }

  /** `n` Correct presses from any valid state speak each new word once, in
      list order, up to the last word. */
  lemma RunPressesSaid(words: seq<string>, s: State, n: nat)
    requires Valid(words, s)
    ensures Run(words, s, Presses(n)).said == words[s.index + 1 .. Min(s.index + n, LastIndex(words)) + 1]
  {
    RunPressesUpcoming(words, s, n);
    UpcomingIsSlice(words, s.index, n);
  }

  /** After `n > 0` Correct presses the message is praise while the presses
      have not gone past the last word, and the completion message once one
      was made on the last word. */
  lemma {:induction false} RunPressesMessage(words: seq<string>, s: State, n: nat)
    requires Valid(words, s) && n > 0
    ensures Run(words, s, Presses(n)).next.message ==
              if s.index + n <= LastIndex(words) then GreatJob else AllDone
    decreases n
  {
    var first := OnCorrect(words, s);
    PressesStep(words, s, n);
    if n > 1 {
      RunPressesMessage(words, first.next, n - 1);
    }
  }

  /** From the start, Correct presses reach the last word exactly when there
      are at least `|words| - 1` of them; the first `|words| - 1` speak every
      word after the first and leave praise on screen, and one more shows the
      completion message. */
  lemma ReachLastWord(words: seq<string>, n: nat)
    requires words != []
    ensures Run(words, Initial, Presses(n)).next.index == LastIndex(words) <==> n >= LastIndex(words)
    ensures Run(words, Initial, Presses(|words| - 1)).said == words[1..]
    ensures |words| > 1 ==> Run(words, Initial, Presses(|words| - 1)).next.message == GreatJob
    ensures Run(words, Initial, Presses(|words|)).next == State(LastIndex(words), AllDone)
  {
    RunPressesIndex(words, Initial, n);
    RunPressesSaid(words, Initial, |words| - 1);
    if |words| > 1 {
      RunPressesMessage(words, Initial, |words| - 1);
      assert Initial.index + (|words| - 1) <= LastIndex(words);
    }
    RunPressesIndex(words, Initial, |words|);
    RunPressesMessage(words, Initial, |words|);
  }

  /** With the shipped list of twenty words, nineteen Correct presses from the
      start show "be" with praise, and a twentieth shows the completion message. */
  lemma ShippedListFinishes()
    ensures Run(Words, Initial, Presses(19)).next == State(19, GreatJob)
    ensures CurrentWord(Words, Run(Words, Initial, Presses(19)).next) == "be"
    ensures Run(Words, Initial, Presses(20)).next == State(19, AllDone)
  {
    InitialState();
    ReachLastWord(Words, 19);
  }
}
