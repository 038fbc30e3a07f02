/**
 * The focus challenge: clicking the input schedules twelve popups (three rounds
 * of the four base popups), which appear one per timer; each can be closed by
 * its id, Escape closes all of them, and the challenge completes once the
 * input was clicked and every popup on screen is closed.
 */
module ModalAttack {
  import NumberText
  import CaptchaContext

  datatype ModalType = Cookie | Gdpr | Figma | Newsletter

  /** A popup without its id and its closed flag. */
  datatype BaseModal = BaseModal(title: string, content: string, modalType: ModalType)

  datatype Modal = Modal(id: int, title: string, content: string, modalType: ModalType, closed: bool)

  /** The four base popups, in order. */
  const BaseModals: seq<BaseModal> := [
    BaseModal("Cookie Preferences",
      "We use essential, analytical, functional and advertising cookies to give you the best experience on our site.",
      Cookie),
    BaseModal("GDPR Compliance",
      "We've updated our privacy policy for the 17th time this month. Nothing important changed.",
      Gdpr),
    BaseModal("Figma Layout Tips",
      "Have you tried auto-layout? It will change your life! Click here to learn more about constraints.",
      Figma),
    BaseModal("Join Our Newsletter",
      "Subscribe for daily design tips that you'll immediately archive without reading!",
      Newsletter)
  ]

  /** How many times the base popups are repeated. */
  const RoundCount: nat := 3

  /**
   * The popup built from base popup `i` in round `round`: numbered after the
   * popups of the earlier rounds, open, and titled with the round number from
   * the second round on.
   */
  function BuildModal(round: nat, i: nat): (m: Modal)
    requires i < |BaseModals|
    ensures m.id == round * |BaseModals| + i + 1
    ensures m.content == BaseModals[i].content && m.modalType == BaseModals[i].modalType && !m.closed
    ensures round == 0 ==> m.title == BaseModals[i].title
    ensures round > 0 ==> m.title == BaseModals[i].title + " (" + NumberText.Decimal(round + 1) + ")"
  {
    var base := BaseModals[i];
    var title := if round == 0 then base.title else base.title + " (" + NumberText.Decimal(round + 1) + ")";
    Modal(round * |BaseModals| + i + 1, title, base.content, base.modalType, false)
  }

  /** `baseModals.map(...)` for one round. */
  function RoundModals(round: nat): (r: seq<Modal>)
    ensures |r| == |BaseModals|
    ensures forall i :: 0 <= i < |r| ==> r[i] == BuildModal(round, i)
  {
    seq(|BaseModals|, i requires 0 <= i < |BaseModals| => BuildModal(round, i))
  }

  /** `Array.from({ length: n }).flatMap(...)`: the popups of rounds 0 .. n-1, round after round. */
  function Rounds(n: nat): seq<Modal>
    decreases n
  {
    if n == 0 then [] else Rounds(n - 1) + RoundModals(n - 1)
  }

  /** The popup at position `k` of the list comes from base popup `k % 4` in round `k / 4`. */
  lemma {:induction false} RoundsShape(n: nat)
    ensures |Rounds(n)| == |BaseModals| * n
    ensures forall k :: 0 <= k < |Rounds(n)| ==> Rounds(n)[k] == BuildModal(k / |BaseModals|, k % |BaseModals|)
    decreases n
  {
    if n > 0 {
      RoundsShape(n - 1);
      var before := Rounds(n - 1);
      var r := Rounds(n);
      forall k | 0 <= k < |r|
        ensures r[k] == BuildModal(k / |BaseModals|, k % |BaseModals|)
      {
        if k >= |before| {
          var i := k - |before|;
          assert k == (n - 1) * |BaseModals| + i;
          assert k / |BaseModals| == n - 1 && k % |BaseModals| == i;
          assert r[k] == RoundModals(n - 1)[i];
        } else {
          assert r[k] == before[k];
        }
      }
    }
  }

  /** The list the first click schedules. */
  const InitialModals: seq<Modal> := Rounds(RoundCount)

  /** Twelve popups, the k-th built from base popup `k % 4` in round `k / 4`. */
  lemma InitialModalsShape()
    ensures |InitialModals| == 12
    ensures forall k :: 0 <= k < |InitialModals| ==> InitialModals[k] == BuildModal(k / 4, k % 4)
  {
    RoundsShape(RoundCount);
  }

  /** Some popup of `ms` carries the id. */
  predicate HasId(ms: seq<Modal>, id: int) {
    exists k :: 0 <= k < |ms| && ms[k].id == id
  }

  /**
   * The popups are numbered 1 to 12 in list order, so their ids are distinct and
   * are exactly 1..12; each copies the content and type of its base popup and starts open.
   */
  lemma InitialIds()
    ensures forall k :: 0 <= k < |InitialModals| ==> InitialModals[k].id == k + 1
    ensures forall k :: 0 <= k < |InitialModals| ==>
              InitialModals[k].content == BaseModals[k % 4].content &&
              InitialModals[k].modalType == BaseModals[k % 4].modalType && !InitialModals[k].closed
    ensures forall j, k :: 0 <= j < k < |InitialModals| ==> InitialModals[j].id != InitialModals[k].id
    ensures forall id :: HasId(InitialModals, id) <==> 1 <= id <= 12
  {
    InitialModalsShape();
    forall id
      ensures HasId(InitialModals, id) <==> 1 <= id <= 12
    {
      if 1 <= id <= 12 {
        assert InitialModals[id - 1].id == id;
      }
    }
  }

  /** The first round keeps the base titles; the later rounds append their number. */
  lemma InitialTitles()
    ensures forall k :: 0 <= k < 4 ==> InitialModals[k].title == BaseModals[k].title
    ensures InitialModals[4].title == "Cookie Preferences (2)"
    ensures InitialModals[11].title == "Join Our Newsletter (3)"
  {
    InitialModalsShape();
    assert InitialModals[4] == BuildModal(1, 0);
    assert InitialModals[11] == BuildModal(2, 3);
    assert NumberText.Decimal(2) == "2" && NumberText.Decimal(3) == "3";
  }

  // ---------------------------------------------------------------------------
  // The screen's state and its event handlers

  /**
   * The popups on screen, the popups whose timers have not fired yet (in the
   * order they fire), and whether the input was clicked.
   */
  datatype FocusChallenge = FocusChallenge(modals: seq<Modal>, pending: seq<Modal>, inputClicked: bool)

  const Start: FocusChallenge := FocusChallenge([], [], false)

  /** A click on the input: the first one schedules the twelve popups; later ones do nothing. */
  function HandleInputClick(s: FocusChallenge): (r: FocusChallenge)
    ensures r.inputClicked
    ensures !s.inputClicked ==> r == s.(inputClicked := true, pending := s.pending + InitialModals)
    ensures s.inputClicked ==> r == s
  {
    if !s.inputClicked then s.(inputClicked := true, pending := s.pending + InitialModals) else s
  }

  /** The next timer fires: its popup is appended to those on screen. */
  function TimerFires(s: FocusChallenge): (r: FocusChallenge)
    ensures r.inputClicked == s.inputClicked
    ensures s.pending == [] ==> r == s
    ensures s.pending != [] ==> r.modals == s.modals + [s.pending[0]] && r.pending == s.pending[1..]
  {
    if s.pending == [] then s else s.(modals := s.modals + [s.pending[0]], pending := s.pending[1..])
  }

  /** `closeModal(id)`: marks the popups with that id closed and leaves every other popup alone. */
  function CloseModal(ms: seq<Modal>, id: int): (r: seq<Modal>)
    ensures |r| == |ms|
    ensures forall k :: 0 <= k < |r| ==> r[k] == ms[k].(closed := ms[k].closed || ms[k].id == id)
  {
    seq(|ms|, k requires 0 <= k < |ms| => if ms[k].id == id then ms[k].(closed := true) else ms[k])
  }

  /** Closing an id no popup carries changes nothing. */
  lemma CloseUnknownId(ms: seq<Modal>, id: int)
    requires forall k :: 0 <= k < |ms| ==> ms[k].id != id
    ensures CloseModal(ms, id) == ms
  {
  }

  /** Closing the same popup twice is closing it once. */
  lemma CloseModalIdempotent(ms: seq<Modal>, id: int)
    ensures CloseModal(CloseModal(ms, id), id) == CloseModal(ms, id)
  {
  }

  predicate AnyOpen(ms: seq<Modal>) {
    exists k :: 0 <= k < |ms| && !ms[k].closed
  }

  /** The Escape fallback's update: every popup closed, nothing else changed. */
  function CloseAll(ms: seq<Modal>): (r: seq<Modal>)
    ensures |r| == |ms|
    ensures forall k :: 0 <= k < |r| ==> r[k] == ms[k].(closed := true)
  {
    seq(|ms|, k requires 0 <= k < |ms| => ms[k].(closed := true))
  }

  /** Closing the popup with the given id, as the close and action buttons of a popup do. */
  function Close(s: FocusChallenge, id: int): (r: FocusChallenge)
    ensures r.pending == s.pending && r.inputClicked == s.inputClicked && |r.modals| == |s.modals|
    ensures forall k :: 0 <= k < |r.modals| ==> r.modals[k].closed == (s.modals[k].closed || s.modals[k].id == id)
    ensures forall k :: 0 <= k < |r.modals| ==> r.modals[k].(closed := s.modals[k].closed) == s.modals[k]
  {
    s.(modals := CloseModal(s.modals, id))
  }

  /** A key press: Escape closes every popup on screen when at least one is open; nothing else changes. */
  function KeyDown(s: FocusChallenge, key: string): (r: FocusChallenge)
    ensures r.pending == s.pending && r.inputClicked == s.inputClicked && |r.modals| == |s.modals|
    ensures key == "Escape" && AnyOpen(s.modals) ==> r.modals == CloseAll(s.modals)
    ensures key != "Escape" || !AnyOpen(s.modals) ==> r == s
  {
    if key == "Escape" && AnyOpen(s.modals) then s.(modals := CloseAll(s.modals)) else s
  }

  /** After Escape nothing on screen is open, whatever was open before. */
  lemma EscapeClosesEverything(s: FocusChallenge)
    ensures !AnyOpen(KeyDown(s, "Escape").modals)
  {
    var r := KeyDown(s, "Escape");
    if AnyOpen(s.modals) {
      assert forall k :: 0 <= k < |r.modals| ==> r.modals[k].closed;
    }
  }

  /** The label of a popup's action button, one per kind of popup. */
  function ActionLabel(t: ModalType): (caption: string)
    ensures t == Cookie <==> caption == "Accept All"
    ensures t == Gdpr <==> caption == "I Agree"
    ensures t == Figma <==> caption == "Maybe Later"
    ensures t == Newsletter <==> caption == "Subscribe"
  {
    match t
    case Cookie => "Accept All"
    case Gdpr => "I Agree"
    case Figma => "Maybe Later"
    case Newsletter => "Subscribe"
  }

  // ---------------------------------------------------------------------------
  // The states the screen can reach

  /**
   * Before the click nothing is shown or scheduled; after it, the popups on
   * screen followed by the scheduled ones are the twelve popups in order, the
   * ones on screen differing at most in their closed flag.
   */
  predicate Valid(s: FocusChallenge) {
    if !s.inputClicked then s.modals == [] && s.pending == []
    else
      |s.modals| + |s.pending| == |InitialModals| &&
      s.pending == InitialModals[|s.modals|..] &&
      forall k :: 0 <= k < |s.modals| ==> s.modals[k] == InitialModals[k].(closed := s.modals[k].closed)
  }

  lemma StartIsValid()
    ensures Valid(Start)
  {
  }

  lemma ClickPreservesValid(s: FocusChallenge)
    requires Valid(s)
    ensures Valid(HandleInputClick(s))
  {
  }

  lemma {:induction false} TimerPreservesValid(s: FocusChallenge)
    requires Valid(s)
    ensures Valid(TimerFires(s))
  {
    if s.pending != [] {
      var r := TimerFires(s);
      var n := |s.modals|;
      assert s.pending[0] == InitialModals[n];
      assert r.pending == InitialModals[n + 1..];
      forall k | 0 <= k < |r.modals|
        ensures r.modals[k] == InitialModals[k].(closed := r.modals[k].closed)
      {
        if k < n {
          assert r.modals[k] == s.modals[k];
        }
      }
    }
  }

  lemma ClosePreservesValid(s: FocusChallenge, id: int)
    requires Valid(s)
    ensures Valid(Close(s, id))
  {
  }

  lemma KeyDownPreservesValid(s: FocusChallenge, key: string)
    requires Valid(s)
    ensures Valid(KeyDown(s, key))
  {
  }

  /** The state after `n` timers have fired. */
  function FireTimers(s: FocusChallenge, n: nat): FocusChallenge
    decreases n
  {
    if n == 0 then s else TimerFires(FireTimers(s, n - 1))
  }

  /** With `queue` scheduled and nothing on screen, the first `n` timers show the first `n` popups of the queue. */
  lemma {:induction false} TimersShowQueueInOrder(queue: seq<Modal>, n: nat)
    requires n <= |queue|
    ensures FireTimers(FocusChallenge([], queue, true), n) == FocusChallenge(queue[..n], queue[n..], true)
    decreases n
  {
    if n > 0 {
      TimersShowQueueInOrder(queue, n - 1);
      QueueStep(queue, n - 1);
    }
  }

  /** Moving the head of the rest of the queue to the end of the shown part. */
  lemma QueueStep(queue: seq<Modal>, k: nat)
    requires k < |queue|
    ensures queue[..k] + [queue[k..][0]] == queue[..k + 1]
    ensures queue[k..][1..] == queue[k + 1..]
  {
  }

  /** After the click, the first `n` timers put the first `n` popups on screen, all open. */
  lemma TimersShowPopupsInOrder(n: nat)
    requires n <= |InitialModals|
    ensures FireTimers(HandleInputClick(Start), n) == FocusChallenge(InitialModals[..n], InitialModals[n..], true)
  {
    assert HandleInputClick(Start) == FocusChallenge([], InitialModals, true);
    TimersShowQueueInOrder(InitialModals, n);
  }

  // ---------------------------------------------------------------------------
  // Completion

  /**
   * The completion test of the screen as written: the input was clicked, some
   * popup is on screen, and every popup on screen is closed. Popups still
   * waiting for their timer are not looked at.
   */
  predicate AllClosed(s: FocusChallenge) {
    s.inputClicked && |s.modals| > 0 && forall k :: 0 <= k < |s.modals| ==> s.modals[k].closed
  }

  /**
   * Closing the first popup before the second one appears already passes the
   * test as written and records step 4, with eleven popups never shown.
   */
  lemma EarlyCompletion()
    ensures var s := Close(TimerFires(HandleInputClick(Start)), 1);
            AllClosed(s) && |s.pending| == 11 && CaptchaContext.IsStepCompleted(CompletionEffect(s, []), 4)
  {
    InitialIds();
    var s := TimerFires(HandleInputClick(Start));
    assert s.modals == [InitialModals[0]];
  }

  /** The completion test as intended: every popup is closed and none is still to come. */
  predicate AllDismissed(s: FocusChallenge) {
    AllClosed(s) && s.pending == []
  }

  /** Some popup of `ms` carries the id and is closed. */
  predicate ClosedId(ms: seq<Modal>, id: int) {
    exists k :: 0 <= k < |ms| && ms[k].id == id && ms[k].closed
  }

  /** The popups of `ms` are numbered 1, 2, 3, ... in list order. */
  predicate NumberedInOrder(ms: seq<Modal>) {
    forall k :: 0 <= k < |ms| ==> ms[k].id == k + 1
  }

  /**
   * A list numbered in order holds twelve popups, all closed, exactly when each
   * of the ids 1 to 12 belongs to a closed popup of it.
   */
  lemma EveryIdClosedIff(ms: seq<Modal>)
    requires NumberedInOrder(ms) && |ms| <= 12
    ensures (|ms| == 12 && forall k :: 0 <= k < |ms| ==> ms[k].closed) <==>
            forall id :: 1 <= id <= 12 ==> ClosedId(ms, id)
  {
    if |ms| == 12 && forall k :: 0 <= k < |ms| ==> ms[k].closed {
      forall id | 1 <= id <= 12
        ensures ClosedId(ms, id)
      {
        assert ms[id - 1].id == id;
      }
    }
    if forall id :: 1 <= id <= 12 ==> ClosedId(ms, id) {
      assert ClosedId(ms, 12);
      var last :| 0 <= last < |ms| && ms[last].id == 12 && ms[last].closed;
      forall k | 0 <= k < |ms|
        ensures ms[k].closed
      {
        assert ClosedId(ms, k + 1);
        var j :| 0 <= j < |ms| && ms[j].id == k + 1 && ms[j].closed;
      }
    }
  }

  /** In a list numbered in order, every popup is closed exactly when each of the ids 1 to its length is a closed popup of it. */
  lemma ShownClosedIff(ms: seq<Modal>)
    requires NumberedInOrder(ms)
    ensures (forall k :: 0 <= k < |ms| ==> ms[k].closed) <==> forall id :: 1 <= id <= |ms| ==> ClosedId(ms, id)
  {
    if forall k :: 0 <= k < |ms| ==> ms[k].closed {
      forall id | 1 <= id <= |ms|
        ensures ClosedId(ms, id)
      {
        assert ms[id - 1].id == id;
      }
    }
    if forall id :: 1 <= id <= |ms| ==> ClosedId(ms, id) {
      forall k | 0 <= k < |ms|
        ensures ms[k].closed
      {
        assert ClosedId(ms, k + 1);
        var j :| 0 <= j < |ms| && ms[j].id == k + 1 && ms[j].closed;
      }
    }
  }

  /**
   * In every reachable state the test as written holds exactly when the input
   * was clicked, some popup has appeared, and each popup that has appeared, ids 1
   * to the number shown, is closed; the popups still to come are not looked at.
   */
  lemma AllClosedMeansShownPopupsClosed(s: FocusChallenge)
    requires Valid(s)
    ensures AllClosed(s) <==>
            s.inputClicked && |s.modals| > 0 &&
            forall id :: 1 <= id <= |s.modals| ==> ClosedId(s.modals, id)
  {
    if s.inputClicked {
      InitialIds();
      InitialModalsShape();
      assert NumberedInOrder(s.modals) by {
        forall k | 0 <= k < |s.modals|
          ensures s.modals[k].id == k + 1
        {
          assert s.modals[k].id == InitialModals[k].id;
        }
      }
      ShownClosedIff(s.modals);
    }
  }

  /**
   * In every reachable state the intended test holds exactly when the input was
   * clicked and each of the twelve popups, ids 1 to 12, has been shown and closed.
   */
  lemma AllDismissedMeansEveryPopupClosed(s: FocusChallenge)
    requires Valid(s)
    ensures AllDismissed(s) <==>
            s.inputClicked &&
            forall id :: 1 <= id <= 12 ==> ClosedId(s.modals, id)
  {
    if s.inputClicked {
      InitialIds();
      InitialModalsShape();
      assert NumberedInOrder(s.modals) by {
        forall k | 0 <= k < |s.modals|
          ensures s.modals[k].id == k + 1
        {
          assert s.modals[k].id == InitialModals[k].id;
        }
      }
      EveryIdClosedIff(s.modals);
    }
  }

  /** Once every popup has appeared, Escape completes the challenge. */
  lemma EscapeCompletes(s: FocusChallenge)
    requires Valid(s) && s.inputClicked && s.pending == []
    ensures AllDismissed(KeyDown(s, "Escape"))
  {
    EscapeClosesEverything(s);
    InitialModalsShape();
  }

  /** Closing each id of `ids` in turn. */
  function CloseEach(s: FocusChallenge, ids: seq<int>): FocusChallenge
    decreases |ids|
  {
    if ids == [] then s else Close(CloseEach(s, ids[..|ids| - 1]), ids[|ids| - 1])
  }

  /** Closing ids in turn closes every popup whose id was among them and changes nothing else. */
  lemma {:induction false} CloseEachCloses(s: FocusChallenge, ids: seq<int>)
    ensures CloseEach(s, ids).pending == s.pending && CloseEach(s, ids).inputClicked == s.inputClicked
    ensures |CloseEach(s, ids).modals| == |s.modals|
    ensures forall k :: 0 <= k < |s.modals| ==>
              CloseEach(s, ids).modals[k] == s.modals[k].(closed := s.modals[k].closed || s.modals[k].id in ids)
    decreases |ids|
  {
    if ids != [] {
      var init := ids[..|ids| - 1];
      CloseEachCloses(s, init);
      assert ids == init + [ids[|ids| - 1]];
    }
  }

  /** On a list numbered 1 to 12 with nothing to come, closing ids that include 1 to 12 completes it. */
  lemma ClosingNumberedCompletes(s: FocusChallenge, ids: seq<int>)
    requires s.inputClicked && s.pending == [] && |s.modals| == 12 && NumberedInOrder(s.modals)
    requires forall id :: 1 <= id <= 12 ==> id in ids
    ensures AllDismissed(CloseEach(s, ids))
  {
    CloseEachCloses(s, ids);
    var r := CloseEach(s, ids);
    forall k | 0 <= k < |r.modals|
      ensures r.modals[k].closed
    {
      assert s.modals[k].id == k + 1;
    }
  }

  /**
   * After all twelve popups have appeared, closing ids that include 1 to 12, in
   * any order and with repeats, completes the challenge.
   */
  lemma ClosingEveryIdCompletes(ids: seq<int>)
    requires forall id :: 1 <= id <= 12 ==> id in ids
    ensures AllDismissed(CloseEach(FireTimers(HandleInputClick(Start), |InitialModals|), ids))
  {
    InitialModalsShape();
    InitialIds();
    TimersShowPopupsInOrder(|InitialModals|);
    var s := FireTimers(HandleInputClick(Start), |InitialModals|);
    assert NumberedInOrder(s.modals) by {
      forall k | 0 <= k < |s.modals|
        ensures s.modals[k].id == k + 1
      {
        assert s.modals[k] == InitialModals[k];
      }
    }
    ClosingNumberedCompletes(s, ids);
  }

  /**
   * The completion effect as written: step 4 is recorded once the test of the
   * source holds, whether or not popups are still to come.
   */
  function CompletionEffect(s: FocusChallenge, completedSteps: seq<int>): (r: seq<int>)
    ensures CaptchaContext.IsStepCompleted(r, 4) <==> AllClosed(s) || CaptchaContext.IsStepCompleted(completedSteps, 4)
    ensures forall step :: step != 4 ==> (CaptchaContext.IsStepCompleted(r, step) <==> CaptchaContext.IsStepCompleted(completedSteps, step))
  {
    if AllClosed(s) then CaptchaContext.CompleteStep(completedSteps, 4) else completedSteps
  }

  /** The completion effect as intended: step 4 is recorded once every popup has appeared and been closed. */
  function CompletionEffectIntended(s: FocusChallenge, completedSteps: seq<int>): (r: seq<int>)
    ensures CaptchaContext.IsStepCompleted(r, 4) <==> AllDismissed(s) || CaptchaContext.IsStepCompleted(completedSteps, 4)
    ensures forall step :: step != 4 ==> (CaptchaContext.IsStepCompleted(r, step) <==> CaptchaContext.IsStepCompleted(completedSteps, step))
  {
    if AllDismissed(s) then CaptchaContext.CompleteStep(completedSteps, 4) else completedSteps
  }

  /**
   * In a reachable state where step 4 is not yet recorded, the intended effect
   * records it exactly when the input was clicked and each of the popups 1 to 12
   * has been shown and closed.
   */
  lemma IntendedEffectNeedsEveryPopup(s: FocusChallenge, completedSteps: seq<int>)
    requires Valid(s) && !CaptchaContext.IsStepCompleted(completedSteps, 4)
    ensures CaptchaContext.IsStepCompleted(CompletionEffectIntended(s, completedSteps), 4) <==>
            s.inputClicked && forall id :: 1 <= id <= 12 ==> ClosedId(s.modals, id)
  {
    AllDismissedMeansEveryPopupClosed(s);
  }
}
