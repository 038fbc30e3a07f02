/**
 * The challenge flow: five screens shown one at a time, each but the last
 * moving the flow to the next one when it completes, and the Konami code as a
 * shortcut that skips the current screen and briefly shows an indicator.
 */
module CaptchaChallenge {
  import opened Wrappers
  import Konami

  datatype Screen = Intro | ButtonHell | ContrastTrap | InputHell | Final

  /** The screens in the order they are shown. */
  const Steps: seq<Screen> := [Intro, ButtonHell, ContrastTrap, InputHell, Final]

  /** The index of the screen on show and whether the Konami indicator is visible. */
  datatype Flow = Flow(currentStep: int, showKonamiIndicator: bool)

  const InitialFlow: Flow := Flow(0, false)

  predicate ValidFlow(f: Flow) {
    0 <= f.currentStep < |Steps|
  }

  /** The flow starts valid, on the first of five screens, with the indicator hidden. */
  lemma InitialFlowIsValid()
    ensures ValidFlow(InitialFlow) && |Steps| == 5 && Steps[InitialFlow.currentStep] == Intro
    ensures !InitialFlow.showKonamiIndicator
  {
  }

  /** The step each screen's `onComplete` handler moves to; the final screen has none. */
  function CompletionTarget(screen: Screen): (target: Option<int>)
    ensures screen == Final <==> target.None?
    ensures forall i :: 0 <= i < |Steps| - 1 && Steps[i] == screen ==> target == Some(i + 1)
  {
    match screen
    case Intro => Some(1)
    case ButtonHell => Some(2)
    case ContrastTrap => Some(3)
    case InputHell => Some(4)
    case Final => None
  }

  /** The screen on show completes: the flow moves to that screen's target, if it has one. */
  function CompleteScreen(f: Flow): (r: Flow)
    requires ValidFlow(f)
    ensures ValidFlow(r) && r.showKonamiIndicator == f.showKonamiIndicator
    ensures f.currentStep < |Steps| - 1 ==> r.currentStep == f.currentStep + 1
    ensures f.currentStep == |Steps| - 1 ==> r == f
  {
    match CompletionTarget(Steps[f.currentStep])
    case Some(target) => f.(currentStep := target)
    case None => f
  }

  /** The Konami callback: the next screen and the indicator, unless the final screen is on show. */
  function AdvanceStep(f: Flow): (r: Flow)
    ensures f.currentStep < |Steps| - 1 ==> r == Flow(f.currentStep + 1, true)
    ensures f.currentStep >= |Steps| - 1 ==> r == f
  {
    if f.currentStep < |Steps| - 1 then Flow(f.currentStep + 1, true) else f
  }

  /** The timeout that hides the indicator again. */
  function HideIndicator(f: Flow): (r: Flow)
    ensures r.currentStep == f.currentStep && !r.showKonamiIndicator
  {
    f.(showKonamiIndicator := false)
  }

  /** The step shown in the header, counted from one. */
  function HeaderStep(f: Flow): (n: int)
    requires ValidFlow(f)
    ensures 1 <= n <= |Steps| && n == f.currentStep + 1
  {
    f.currentStep + 1
  }

  /** Advancing keeps the flow on one of the five screens and never goes past the last. */
  lemma AdvancePreservesValid(f: Flow)
    requires ValidFlow(f)
    ensures ValidFlow(AdvanceStep(f))
    ensures AdvanceStep(f).currentStep == if f.currentStep < 4 then f.currentStep + 1 else 4
  {
  }

  /** The indicator is switched on only by an advance that moved to another screen. */
  lemma IndicatorOnlyWhenAdvanced(f: Flow)
    requires !f.showKonamiIndicator
    ensures AdvanceStep(f).showKonamiIndicator <==> AdvanceStep(f).currentStep == f.currentStep + 1
  {
  }

  /** `n` Konami callbacks in a row. */
  function AdvanceTimes(f: Flow, n: nat): Flow
    decreases n
  {
    if n == 0 then f else AdvanceStep(AdvanceTimes(f, n - 1))
  }

  /** Each callback skips one screen until the last, where the flow stays. */
  lemma {:induction false} AdvanceTimesStops(f: Flow, n: nat)
    requires ValidFlow(f)
    ensures ValidFlow(AdvanceTimes(f, n))
    ensures AdvanceTimes(f, n).currentStep == if f.currentStep + n < |Steps| then f.currentStep + n else |Steps| - 1
    decreases n
  {
    if n > 0 {
      AdvanceTimesStops(f, n - 1);
    }
  }

  /** The flow together with the Konami hook's key buffer. */
  datatype Challenge = Challenge(flow: Flow, keys: seq<string>)

  /** A key press: the hook handles it and, when the code is complete, advances the flow. */
  function KeyDown(c: Challenge, key: string): (r: Challenge)
    ensures r.keys == Konami.KeyHandler(c.keys, key).keys
    ensures r.flow == if Konami.KeyHandler(c.keys, key).fired then AdvanceStep(c.flow) else c.flow
  {
    var t := Konami.KeyHandler(c.keys, key);
    Challenge(if t.fired then AdvanceStep(c.flow) else c.flow, t.keys)
  }

  /** The challenge after a run of key presses. */
  function Type(c: Challenge, presses: seq<string>): Challenge
    decreases |presses|
  {
    if presses == [] then c else KeyDown(Type(c, presses[..|presses| - 1]), presses[|presses| - 1])
  }

  /** Typing advances the flow once for each time the hook fires, and leaves the hook's buffer. */
  lemma {:induction false} TypeFollowsHook(c: Challenge, presses: seq<string>)
    ensures Type(c, presses).keys == Konami.Run(c.keys, presses).keys
    ensures Type(c, presses).flow == AdvanceTimes(c.flow, Konami.Run(c.keys, presses).fires)
    decreases |presses|
  {
    if presses != [] {
      var init := presses[..|presses| - 1];
      var key := presses[|presses| - 1];
      TypeFollowsHook(c, init);
      var before := Konami.Run(c.keys, init);
      var t := Konami.KeyHandler(before.keys, key);
      assert Konami.Run(c.keys, presses) == Konami.Session(t.keys, before.fires + if t.fired then 1 else 0);
      assert Type(c, presses) == KeyDown(Type(c, init), key);
      if t.fired {
        assert AdvanceTimes(c.flow, before.fires + 1) == AdvanceStep(AdvanceTimes(c.flow, before.fires));
      }
    }
  }

  /** Typing the code on any screen but the last skips to the next screen and shows the indicator. */
  lemma KonamiSkipsScreen(c: Challenge)
    requires ValidFlow(c.flow) && c.flow.currentStep < |Steps| - 1 && |c.keys| <= |Konami.KonamiCode|
    ensures Type(c, Konami.KonamiCode) == Challenge(Flow(c.flow.currentStep + 1, true), [])
  {
    Konami.TypingTheCodeFiresOnce(c.keys);
    TypeFollowsHook(c, Konami.KonamiCode);
  }
}
