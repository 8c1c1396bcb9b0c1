/** The hero's typewriter effect (`type` in js/script.js).

    One call of `type` is one `Step`: it shows a new prefix of the current title,
    moves the cursor one character forward (typing) or back (deleting), and picks
    the delay before the next call. Typing the last character switches to deleting
    after a long pause; deleting the last character moves on to the next title
    after a shorter pause. The timer that calls `type` again is not modelled: `Run`
    takes a number of steps instead. */
module Typewriter {
  import opened JsString

  /** The titles the page cycles through. */
  const Titles: seq<string> := ["Building with CodeWithAI", "AI-Powered Frontend Developer"]

  /** Delays, in milliseconds, before the next step. */
  const TypingDelay: nat := 100
  const DeletingDelay: nat := 50
  const EndOfTitlePause: nat := 2000
  const NextTitlePause: nat := 500

  /** The three globals the step reads and writes. `charIndex` is an unbounded
      integer because nothing in the step itself keeps it in range. */
  datatype TypeState = TypeState(titleIndex: nat, charIndex: int, isDeleting: bool)

  /** The globals as the script declares them. */
  const Initial := TypeState(0, 0, false)

  /** What one step produces: the text shown, the next state, and the delay. */
  datatype StepResult = StepResult(text: string, next: TypeState, delay: nat)

  /** Every title has at least one character. */
  predicate NonEmptyTitles(titles: seq<string>)
  {
    |titles| > 0 && forall i :: 0 <= i < |titles| ==> |titles[i]| > 0
  }

  /** The states the effect passes through: the title exists, and the cursor is
      strictly inside the title in the direction it is moving. */
  predicate Inv(titles: seq<string>, st: TypeState)
  {
    && st.titleIndex < |titles|
    && (if st.isDeleting then 0 < st.charIndex <= |titles[st.titleIndex]|
        else 0 <= st.charIndex < |titles[st.titleIndex]|)
  }

  /** One call of `type`. The text shown is always the current title cut at the new
      cursor (which is the empty string right after a switch to the next title). */
  function Step(titles: seq<string>, st: TypeState): (r: StepResult)
    requires st.titleIndex < |titles|
    ensures r.next.titleIndex < |titles|
    ensures r.text == Substring(titles[r.next.titleIndex], 0, r.next.charIndex)
    ensures r.next.charIndex == if st.isDeleting then st.charIndex - 1 else st.charIndex + 1
    ensures r.delay in {TypingDelay, DeletingDelay, EndOfTitlePause, NextTitlePause}
    // typing the last character of the title
    ensures !st.isDeleting && st.charIndex + 1 == |titles[st.titleIndex]| ==>
              r.next.isDeleting && r.next.titleIndex == st.titleIndex && r.delay == EndOfTitlePause
    // deleting the first character of the title
    ensures st.isDeleting && st.charIndex == 1 ==>
              !r.next.isDeleting && r.next.titleIndex == (st.titleIndex + 1) % |titles|
              && r.delay == NextTitlePause
    // every other step keeps direction and title
    ensures !st.isDeleting && st.charIndex + 1 != |titles[st.titleIndex]| ==>
              !r.next.isDeleting && r.next.titleIndex == st.titleIndex && r.delay == TypingDelay
    ensures st.isDeleting && st.charIndex != 1 ==>
              r.next.isDeleting && r.next.titleIndex == st.titleIndex && r.delay == DeletingDelay
  {
    var current := titles[st.titleIndex];
    var charIndex := if st.isDeleting then st.charIndex - 1 else st.charIndex + 1;
    var text := Substring(current, 0, charIndex);
    if !st.isDeleting && charIndex == |current| then
      StepResult(text, TypeState(st.titleIndex, charIndex, true), EndOfTitlePause)
    else if st.isDeleting && charIndex == 0 then
      StepResult(text, TypeState((st.titleIndex + 1) % |titles|, charIndex, false), NextTitlePause)
    else
      StepResult(text, TypeState(st.titleIndex, charIndex, st.isDeleting),
                 if st.isDeleting then DeletingDelay else TypingDelay)
  }

  /** The state after `k` calls of `type`. */
  function Run(titles: seq<string>, st: TypeState, k: nat): (r: TypeState)
    requires st.titleIndex < |titles|
    ensures r.titleIndex < |titles|
    decreases k
  {
    if k == 0 then st else Run(titles, Step(titles, st).next, k - 1)
  }

  /** On the states the effect passes through, the text shown after a step is the
      first `charIndex` characters of the title the next state points at. */
  lemma StepShowsPrefix(titles: seq<string>, st: TypeState)
    requires Inv(titles, st)
    ensures var r := Step(titles, st);
            0 <= r.next.charIndex <= |titles[r.next.titleIndex]|
            && r.text == titles[r.next.titleIndex][..r.next.charIndex]
  {
  }

  /** With no empty title, one step keeps the cursor inside the title. */
  lemma StepPreservesInv(titles: seq<string>, st: TypeState)
    requires NonEmptyTitles(titles)
    requires Inv(titles, st)
    ensures Inv(titles, Step(titles, st).next)
  {
  }

  /** With no empty title, every state reached from a valid one is valid; in
      particular the cursor stays within `0 ..= |title|`. */
  lemma {:induction false} RunPreservesInv(titles: seq<string>, st: TypeState, k: nat)
    requires NonEmptyTitles(titles)
    requires Inv(titles, st)
    ensures Inv(titles, Run(titles, st, k))
    ensures var s := Run(titles, st, k); 0 <= s.charIndex <= |titles[s.titleIndex]|
    decreases k
  {
    if k > 0 {
      StepPreservesInv(titles, st);
      RunPreservesInv(titles, Step(titles, st).next, k - 1);
    }
  }

  /** Running `a` steps and then `b` more is running `a + b` steps. */
  lemma {:induction false} RunAdditive(titles: seq<string>, st: TypeState, a: nat, b: nat)
    requires st.titleIndex < |titles|
    ensures Run(titles, st, a + b) == Run(titles, Run(titles, st, a), b)
    decreases a
  {
    if a > 0 {
      RunAdditive(titles, Step(titles, st).next, a - 1, b);
    }
  }

  /** Typing from any cursor inside a title reaches the end of that title, and
      turns to deleting, after exactly the number of missing characters. */
  lemma {:induction false} TypingReachesEnd(titles: seq<string>, st: TypeState)
    requires st.titleIndex < |titles|
    requires !st.isDeleting && 0 <= st.charIndex < |titles[st.titleIndex]|
    ensures Run(titles, st, |titles[st.titleIndex]| - st.charIndex)
            == TypeState(st.titleIndex, |titles[st.titleIndex]|, true)
    decreases |titles[st.titleIndex]| - st.charIndex
  {
    var next := Step(titles, st).next;
    if st.charIndex + 1 < |titles[st.titleIndex]| {
      TypingReachesEnd(titles, next);
    }
  }

  /** Deleting from cursor `c > 0` reaches the start after `c` steps, and the
      effect then types the next title (wrapping round to the first). */
  lemma {:induction false} DeletingReachesStart(titles: seq<string>, st: TypeState)
    requires st.titleIndex < |titles|
    requires st.isDeleting && st.charIndex > 0
    ensures Run(titles, st, st.charIndex)
            == TypeState((st.titleIndex + 1) % |titles|, 0, false)
    decreases st.charIndex
  {
    if st.charIndex > 1 {
      DeletingReachesStart(titles, Step(titles, st).next);
    }
  }

  /** A whole title is typed and deleted in twice its length steps, after which
      the effect starts on the next title. */
  lemma TitleCycle(titles: seq<string>, titleIndex: nat)
    requires titleIndex < |titles| && |titles[titleIndex]| > 0
    ensures Run(titles, TypeState(titleIndex, 0, false), 2 * |titles[titleIndex]|)
            == TypeState((titleIndex + 1) % |titles|, 0, false)
  {
    var st := TypeState(titleIndex, 0, false);
    var n := |titles[titleIndex]|;
    RunAdditive(titles, st, n, n);
    TypingReachesEnd(titles, st);
    DeletingReachesStart(titles, TypeState(titleIndex, n, true));
  }

  /** An empty title is never finished: the end-of-title test only sees the cursor
      after it has moved past zero, so the cursor grows without bound and the
      effect stays on that title for ever. */
  lemma {:induction false} EmptyTitleNeverDeletes(titles: seq<string>, st: TypeState, k: nat)
    requires st.titleIndex < |titles| && titles[st.titleIndex] == ""
    requires !st.isDeleting && st.charIndex >= 0
    ensures Run(titles, st, k) == TypeState(st.titleIndex, st.charIndex + k, false)
    decreases k
  {
    if k > 0 {
      EmptyTitleNeverDeletes(titles, Step(titles, st).next, k - 1);
    }
  }

  /** The page's own titles: every state the effect reaches from the initial
      globals is valid, and the two titles alternate every 48 and 58 steps. */
  lemma PageTitlesCycle(k: nat)
    ensures Inv(Titles, Run(Titles, Initial, k))
    ensures Run(Titles, Initial, 48) == TypeState(1, 0, false)
    ensures Run(Titles, TypeState(1, 0, false), 58) == Initial
  {
    assert |Titles[0]| == 24 && |Titles[1]| == 29;
    RunPreservesInv(Titles, Initial, k);
    TitleCycle(Titles, 0);
    TitleCycle(Titles, 1);
  }
}
