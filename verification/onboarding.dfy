/** The onboarding dialog's step machine: four steps, Next and Previous move within them and do
    nothing at either end, and closing (the dialog's own close or the last step's button)
    returns to the first step and asks the host page to close the dialog. Also the progress bar
    and the buttons each step shows. */
module Onboarding {
  import opened Strings

  /** The step titles, in order. */
  const Titles: seq<string> :=
    ["Natural Language Queries", "Hybrid Mode with Parameters", "Available Tools",
     "Important Disclaimers"]

  const StepCount: nat := 4

  /** The dialog's state: the current step index. */
  datatype Modal = Modal(step: nat)

  const Initial: Modal := Modal(0)

  /** The steps a state may be on. */
  predicate Valid(m: Modal) {
    m.step < StepCount
  }

  /** What the user can do: the Next button, the Previous button, or close (the dialog's own
      close control or the last step's Get Started button). */
  datatype Event = Next | Prev | Close

  /** `nextStep`: advance unless on the last step. */
  function NextStep(m: Modal): (r: Modal)
    ensures m.step + 1 < StepCount ==> r.step == m.step + 1
    ensures m.step + 1 >= StepCount ==> r == m
  {
    if m.step < StepCount - 1 then Modal(m.step + 1) else m
  }

  /** `prevStep`: go back unless on the first step. */
  function PrevStep(m: Modal): (r: Modal)
    ensures m.step > 0 ==> r.step + 1 == m.step
    ensures m.step == 0 ==> r == m
  {
    if m.step > 0 then Modal(m.step - 1) else m
  }

  /** `handleClose`: back to the first step; the second component says the host's `onClose`
      was called. */
  function HandleClose(m: Modal): (r: (Modal, bool))
    ensures r.0 == Initial && r.1
  {
    (Initial, true)
  }

  /** One event: the new state, and whether the host was asked to close. */
  function Step(m: Modal, e: Event): (r: (Modal, bool))
    ensures r.1 <==> e == Close
    ensures Valid(m) ==> Valid(r.0)
  {
    match e
    case Next => (NextStep(m), false)
    case Prev => (PrevStep(m), false)
    case Close => HandleClose(m)
  }

  /** A run of events from `m`: the final state and how many closes the host saw. */
  function Run(m: Modal, events: seq<Event>): (r: (Modal, nat))
    ensures r.1 <= |events|
    decreases |events|
  {
    if |events| == 0 then (m, 0)
    else
      var (next, closed) := Step(m, events[0]);
      var (last, count) := Run(next, events[1..]);
      (last, count + if closed then 1 else 0)
  }

  /** The step always names one of the four steps, whatever the user does. */
  lemma {:induction false} RunStaysValid(m: Modal, events: seq<Event>)
    requires Valid(m)
    ensures Valid(Run(m, events).0)
    decreases |events|
  {
    if |events| > 0 {
      RunStaysValid(Step(m, events[0]).0, events[1..]);
    }
  }

  /** The host is asked to close once per close event, and never otherwise. */
  lemma {:induction false} ClosesCounted(m: Modal, events: seq<Event>)
    ensures Run(m, events).1 == Count(events, Close)
    decreases |events|
  {
    if |events| > 0 {
      ClosesCounted(Step(m, events[0]).0, events[1..]);
      assert events == [events[0]] + events[1..];
      CountCons(events[0], events[1..], Close);
    }
  }

  /** How many times `e` occurs in `events`. */
  function Count(events: seq<Event>, e: Event): nat
    decreases |events|
  {
    if |events| == 0 then 0
    else Count(events[..|events| - 1], e) + if events[|events| - 1] == e then 1 else 0
  }

  lemma {:induction false} CountCons(x: Event, rest: seq<Event>, e: Event)
    ensures Count([x] + rest, e) == (if x == e then 1 else 0) + Count(rest, e)
    decreases |rest|
  {
    if |rest| > 0 {
      var all := [x] + rest;
      assert all[..|all| - 1] == [x] + rest[..|rest| - 1];
      CountCons(x, rest[..|rest| - 1], e);
    } else {
      assert [x] + rest == [x];
      assert ([x] + rest)[..0] == [];
    }
  }

  /** Previous undoes Next away from the last step, and Next undoes Previous away from the
      first. */
  lemma NextPrevInverse(m: Modal)
    requires Valid(m)
    ensures m.step < StepCount - 1 ==> PrevStep(NextStep(m)) == m
    ensures m.step > 0 ==> NextStep(PrevStep(m)) == m
  {
  }

  /** `k` Next presses from the first step land on step `min(k, 3)`. */
  lemma {:induction false} NextPressesReach(k: nat)
    ensures Run(Initial, Repeated(Next, k)).0.step == if k < StepCount then k else StepCount - 1
    ensures Run(Initial, Repeated(Next, k)).1 == 0
  {
    NextsFrom(Initial, k);
  }

  lemma {:induction false} NextsFrom(m: Modal, k: nat)
    requires Valid(m)
    ensures Run(m, Repeated(Next, k)).0.step ==
              if m.step + k < StepCount then m.step + k else StepCount - 1
    ensures Run(m, Repeated(Next, k)).1 == 0
    decreases k
  {
    if k > 0 {
      var es := Repeated(Next, k);
      assert es[0] == Next && es[1..] == Repeated(Next, k - 1);
      NextsFrom(NextStep(m), k - 1);
    }
  }

  /** `k` copies of one event. */
  function Repeated(e: Event, k: nat): (r: seq<Event>)
    ensures |r| == k && forall i :: 0 <= i < k ==> r[i] == e
  {
    seq(k, _ => e)
  }

  /** Whatever happened before, a run that ends with a close leaves the dialog on step one. */
  lemma {:induction false} CloseResets(m: Modal, events: seq<Event>)
    requires |events| > 0 && events[|events| - 1] == Close
    ensures Run(m, events).0 == Initial
    decreases |events|
  {
    if |events| > 1 {
      CloseResets(Step(m, events[0]).0, events[1..]);
    }
  }

  // ---------------------------------------------------------------- what a step shows

  /** The progress bar: segment `i` is filled exactly when `i <= step`. */
  function Progress(m: Modal): (bar: seq<bool>)
    ensures |bar| == StepCount
    ensures forall i :: 0 <= i < StepCount ==> (bar[i] <==> i <= m.step)
  {
    seq(StepCount, i => i <= m.step)
  }

  /** How many segments are filled. */
  function Filled(bar: seq<bool>): nat
    decreases |bar|
  {
    if |bar| == 0 then 0 else Filled(bar[..|bar| - 1]) + if bar[|bar| - 1] then 1 else 0
  }

  /** On a valid step the bar fills one segment per step reached. */
  lemma ProgressFilled(m: Modal)
    requires Valid(m)
    ensures Filled(Progress(m)) == m.step + 1
  {
    var bar := Progress(m);
    FilledPrefix(bar, m.step + 1);
  }

  lemma {:induction false} FilledPrefix(bar: seq<bool>, n: nat)
    requires n <= |bar|
    requires forall i :: 0 <= i < |bar| ==> (bar[i] <==> i < n)
    ensures Filled(bar) == n
    decreases |bar|
  {
    if |bar| > 0 {
      var front := bar[..|bar| - 1];
      if n == |bar| {
        FilledPrefix(front, n - 1);
      } else {
        FilledPrefix(front, n);
      }
    }
  }

  /** The caption under the bar. */
  function Caption(m: Modal): (c: string)
    ensures StartsWith(c, "Step ") && EndsWith(c, " of " + NatToString(StepCount))
  {
    var c := "Step " + NatToString(m.step + 1) + " of " + NatToString(StepCount);
    assert c[..5] == "Step ";
    assert c[|c| - |" of " + NatToString(StepCount)|..] == " of " + NatToString(StepCount);
    c
  }

  /** The caption's number is the step counted from one. */
  lemma CaptionNumber(m: Modal)
    ensures var c := Caption(m);
            10 < |c| && AllDigits(c[5..|c| - 5]) && DigitsValue(c[5..|c| - 5]) == m.step + 1
  {
    var n := NatToString(m.step + 1);
    var tail := " of " + NatToString(StepCount);
    assert |NatToString(StepCount)| == 1;
    var c := Caption(m);
    assert c == "Step " + n + tail;
    assert c[5..|c| - 5] == n;
    DigitsValueOfNatToString(m.step + 1);
  }

  /** The title shown. */
  function Title(m: Modal): (t: string)
    requires Valid(m)
    ensures t in Titles
  {
    Titles[m.step]
  }

  /** The buttons a step shows. */
  datatype Buttons = Buttons(previousEnabled: bool, primary: Event)

  /** Previous is disabled on the first step; the last step's primary button closes the dialog
      instead of advancing. */
  function ButtonsOf(m: Modal): (b: Buttons)
    ensures b.previousEnabled <==> m.step != 0
    ensures b.primary == Close <==> m.step == StepCount - 1
    ensures b.primary != Prev
  {
    Buttons(m.step != 0, if m.step == StepCount - 1 then Close else Next)
  }

  /** Pressing the button a step offers never leaves the step range and always moves: the
      primary button advances or closes, and an enabled Previous goes back. */
  lemma ButtonsAlwaysAct(m: Modal)
    requires Valid(m)
    ensures Step(m, ButtonsOf(m).primary).0 != m
    ensures ButtonsOf(m).previousEnabled ==> Step(m, Prev).0.step + 1 == m.step
    ensures ButtonsOf(m).primary == Next ==> Step(m, Next).0.step == m.step + 1
  {
  }
}
