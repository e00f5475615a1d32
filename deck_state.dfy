/**
 The swipe-deck state machine of the `Advanced` component, on values.

 The deck is consumed from its last index towards index 0: `currentIndex` is the
 topmost card still in play, cards above it have been swiped away and may be
 restored by Undo. Each event handler of the component is one function from the
 state before to the state after, together with the single side effect the
 handler asks of the card library or of the browser (a `Command`).
 */
module DeckState {
  import opened Wrappers

  /** The directions in which a card can leave the screen. */
  datatype Dir = Left | Right | Up | Down

  /** A JavaScript value that may also be `null` or `undefined`. */
  datatype Slot<T> = Null | Undefined | Present(value: T)

  /** A listing of the deck; only the slug (possibly missing) matters to the state machine. */
  datatype Listing = Listing(slug: Option<string>, title: string)

  /** The detail record of one project shown in the modal. */
  datatype Detail = Detail(title: string, status: string)

  /** What the listing request delivered: a failure (network, JSON) or the decoded array. */
  datatype ListingsResponse = ListingsFailed | ListingsReceived(data: seq<Listing>)

  /** What the detail request delivered: a failure, or the value found at `pageProps.bounty`. */
  datatype DetailResponse = DetailFailed | DetailReceived(bounty: Slot<Detail>)

  /** A side effect: a command to the handle of one card, or opening a URL in a new tab. */
  datatype Command = SwipeCard(card: int, dir: Dir) | RestoreCard(card: int) | Navigate(url: string)

  /**
   The component's state. `refs` is the number of card handles (`childRefs`);
   `indexRef` is the synchronously updated mirror of `currentIndex`.
   */
  datatype State = State(
    db: seq<Listing>,
    refs: nat,
    currentIndex: int,
    indexRef: int,
    lastDirection: Option<Dir>,
    showModal: bool,
    selected: Slot<Detail>)

  /** The state after a handler ran, and the command it issued, if any. */
  datatype Outcome = Outcome(next: State, cmd: Option<Command>)

  /** The events that drive the component. */
  datatype Event =
    | ListingsArrived(listings: ListingsResponse)
    | DetailArrived(detail: DetailResponse)
    | CardSwiped(dir: Dir, index: int)
    | SwipeButton(buttonDir: Dir)
    | UndoButton
    | CardLeftScreen(idx: int)
    | ModalClosed

  const ProjectUrlPrefix: string := "https://earn.superteam.fun/listings/project/"

  /** The state on mount: empty deck, index 0, mirror 0, no direction, modal closed, nothing selected. */
  function Initial(): (s: State)
    ensures Inv(s) && Synced(s) && !IsOpen(s)
    ensures !CanGoBack(s) && CanSwipe(s) && s.currentIndex >= |s.db|
  {
    State([], 0, 0, 0, None, false, Null)
  }

  /** The invariant every reachable state keeps: one handle per card, and the index in range or still the pre-load 0. */
  ghost predicate Inv(s: State)
  {
    && s.refs == |s.db|
    && (-1 <= s.currentIndex < |s.db| || (s.db == [] && s.currentIndex == 0))
  }

  /** The mirror agrees with the state value. */
  predicate Synced(s: State)
  {
    s.indexRef == s.currentIndex
  }

  /** `canGoBack`: some card above the top one can be brought back. */
  function CanGoBack(s: State): (b: bool)
    ensures b && s.currentIndex >= -1 ==> CardAt(s.db, s.currentIndex + 1).Some?
    ensures !b ==> s.currentIndex + 1 >= |s.db|
  {
    s.currentIndex < |s.db| - 1
  }

  /** `canSwipe`: the index is not below the bottom card (it may still be above the deck). */
  function CanSwipe(s: State): (b: bool)
    ensures b && s.currentIndex < |s.db| ==> CardAt(s.db, s.currentIndex).Some?
    ensures !b ==> CardAt(s.db, s.currentIndex).None?
  {
    s.currentIndex >= 0
  }

  /** The modal's `isOpen`: shown and the selection is not `null` (an `undefined` one passes). */
  function IsOpen(s: State): (b: bool)
    ensures b ==> s.showModal
    ensures b <==> s.showModal && (s.selected.Undefined? || s.selected.Present?)
  {
    s.showModal && s.selected != Null
  }

  /** JavaScript truthiness of an optional string: present and non-empty. */
  predicate Truthy(slug: Option<string>)
  {
    slug.Some? && slug.value != ""
  }

  /** The card whose handle a command addresses, if it addresses one. */
  function Target(c: Option<Command>): Option<int>
  {
    match c
    case Some(SwipeCard(i, _)) => Some(i)
    case Some(RestoreCard(i)) => Some(i)
    case _ => None
  }

  /** A command that addresses a handle addresses one that exists. */
  predicate Addressable(c: Option<Command>, refs: nat)
  {
    Target(c).Some? ==> 0 <= Target(c).value < refs
  }

  /** The page a liked project opens. */
  function NavigationUrl(slug: string): (url: string)
    ensures |url| == |ProjectUrlPrefix| + |slug|
    ensures url[..|ProjectUrlPrefix|] == ProjectUrlPrefix && url[|ProjectUrlPrefix|..] == slug
  {
    ProjectUrlPrefix + slug
  }

  /** `db[index]`: undefined outside the array. */
  function CardAt(db: seq<Listing>, index: int): Option<Listing>
  {
    if 0 <= index < |db| then Some(db[index]) else None
  }

  /** `updateCurrentIndex`: sets the state value and its mirror together. */
  function UpdateCurrentIndex(s: State, val: int): (r: State)
    ensures r.currentIndex == val && Synced(r)
    ensures r.(currentIndex := s.currentIndex, indexRef := s.indexRef) == s
  {
    s.(currentIndex := val, indexRef := val)
  }

  /** The outcome of `fetchListings`: the deck and the index change, the mirror does not. */
  function Load(s: State, resp: ListingsResponse): (r: State)
    ensures resp.ListingsFailed? ==> r == s
    ensures resp.ListingsReceived? ==>
              && r.db == resp.data
              && r.refs == |resp.data|
              && r.currentIndex == |resp.data| - 1
              && r.indexRef == s.indexRef
              && r.(db := s.db, refs := s.refs, currentIndex := s.currentIndex) == s
    ensures Inv(s) ==> Inv(r)
  {
    match resp
    case ListingsFailed => s
    case ListingsReceived(data) => s.(db := data, refs := |data|, currentIndex := |data| - 1)
  }

  /** The outcome of `fetchProjectDetail`: on success the selection is stored and the modal shown. */
  function FetchDetail(s: State, resp: DetailResponse): (r: State)
    ensures resp.DetailFailed? ==> r == s
    ensures resp.DetailReceived? ==>
              && r.selected == resp.bounty
              && r.showModal
              && r.(selected := s.selected, showModal := s.showModal) == s
              && (IsOpen(r) <==> resp.bounty != Null)
    ensures Inv(s) ==> Inv(r)
  {
    match resp
    case DetailFailed => s
    case DetailReceived(bounty) => s.(selected := bounty).(showModal := true)
  }

  /** Closing the modal (overlay or the close button) hides it and keeps the selection. */
  function CloseModal(s: State): (r: State)
    ensures !IsOpen(r)
    ensures r.selected == s.selected
    ensures r.(showModal := s.showModal) == s
  {
    s.(showModal := false)
  }

  /**
   `swiped`: records the direction, moves both index and mirror below the swiped
   card, and opens the project page exactly when a right swipe hit a card with a
   truthy slug.
   */
  function Swiped(s: State, dir: Dir, index: int): (r: Outcome)
    ensures r.next == s.(lastDirection := Some(dir), currentIndex := index - 1, indexRef := index - 1)
    ensures Synced(r.next) && r.next.db == s.db
    ensures r.cmd.Some? <==> dir == Right && 0 <= index < |s.db| && Truthy(s.db[index].slug)
    ensures r.cmd.Some? ==> r.cmd.value == Navigate(NavigationUrl(s.db[index].slug.value))
    ensures Inv(s) && 0 <= index < |s.db| ==> Inv(r.next)
  {
    var next := UpdateCurrentIndex(s.(lastDirection := Some(dir)), index - 1);
    var nav :=
      if dir == Right then
        match CardAt(s.db, index)
        case Some(project) =>
          if Truthy(project.slug) then Some(Navigate(NavigationUrl(project.slug.value))) else None
        case None => None
      else None;
    Outcome(next, nav)
  }

  /** `swipe` (Pass and Like): commands the top card to leave, changing no state. */
  function Swipe(s: State, dir: Dir): (r: Outcome)
    ensures r.next == s
    ensures r.cmd.Some? <==> CanSwipe(s) && s.currentIndex < |s.db|
    ensures r.cmd.Some? ==> r.cmd.value == SwipeCard(s.currentIndex, dir)
    ensures Addressable(r.cmd, |s.db|)
  {
    if CanSwipe(s) && s.currentIndex < |s.db| then Outcome(s, Some(SwipeCard(s.currentIndex, dir)))
    else Outcome(s, None)
  }

  /** `goBack` (Undo): raises index and mirror by one and restores that card, or does nothing. */
  function GoBack(s: State): (r: Outcome)
    ensures !CanGoBack(s) ==> r == Outcome(s, None)
    ensures CanGoBack(s) ==>
              && r.next == s.(currentIndex := s.currentIndex + 1, indexRef := s.currentIndex + 1)
              && r.cmd == Some(RestoreCard(s.currentIndex + 1))
    ensures s.currentIndex >= -1 ==> Addressable(r.cmd, |s.db|)
    ensures Inv(s) ==> Inv(r.next)
  {
    if !CanGoBack(s) then Outcome(s, None)
    else
      var newIndex := s.currentIndex + 1;
      Outcome(UpdateCurrentIndex(s, newIndex), Some(RestoreCard(newIndex)))
  }

  /** `outOfFrame`: restores card `idx` exactly when the mirror is at or above it; no state changes. */
  function OutOfFrame(s: State, idx: int): (r: Outcome)
    ensures r.next == s
    ensures r.cmd.Some? <==> s.indexRef >= idx
    ensures r.cmd.Some? ==> r.cmd.value == RestoreCard(idx)
  {
    if s.indexRef >= idx then Outcome(s, Some(RestoreCard(idx))) else Outcome(s, None)
  }

  /** One handler invocation, run atomically. */
  function Step(s: State, e: Event): Outcome
  {
    match e
    case ListingsArrived(resp) => Outcome(Load(s, resp), None)
    case DetailArrived(resp) => Outcome(FetchDetail(s, resp), None)
    case CardSwiped(dir, index) => Swiped(s, dir, index)
    case SwipeButton(dir) => Swipe(s, dir)
    case UndoButton => GoBack(s)
    case CardLeftScreen(idx) => OutOfFrame(s, idx)
    case ModalClosed => Outcome(CloseModal(s), None)
  }

  /** Card callbacks come only from rendered cards, so they carry an index of the deck. */
  predicate WellFormed(s: State, e: Event)
  {
    match e
    case CardSwiped(_, index) => 0 <= index < |s.db|
    case CardLeftScreen(idx) => 0 <= idx < |s.db|
    case _ => true
  }

  /** The state after running `evs` in order. */
  function Run(s: State, evs: seq<Event>): State
    decreases |evs|
  {
    if evs == [] then s else Run(Step(s, evs[0]).next, evs[1..])
  }

  /** Every event of `evs` is well formed in the state it is delivered in. */
  predicate Admissible(s: State, evs: seq<Event>)
    decreases |evs|
  {
    evs == [] || (WellFormed(s, evs[0]) && Admissible(Step(s, evs[0]).next, evs[1..]))
  }

  /** Every command issued while running `evs` addresses an existing card handle. */
  predicate SafeRun(s: State, evs: seq<Event>)
    decreases |evs|
  {
    evs == [] || (Addressable(Step(s, evs[0]).cmd, s.refs) && SafeRun(Step(s, evs[0]).next, evs[1..]))
  }

  /** No event of `evs` delivers the listings. */
  predicate NoLoad(evs: seq<Event>)
  {
    forall i :: 0 <= i < |evs| ==> !evs[i].ListingsArrived?
  }

  /** A well-formed event keeps the invariant, and its command addresses an existing handle. */
  lemma StepKeepsInv(s: State, e: Event)
    requires Inv(s) && WellFormed(s, e)
    ensures Inv(Step(s, e).next)
    ensures Addressable(Step(s, e).cmd, s.refs)
  {
  }

  /** Any admissible run keeps the invariant and commands only existing handles. */
  lemma {:induction false} AdmissibleRunIsSafe(s: State, evs: seq<Event>)
    requires Inv(s) && Admissible(s, evs)
    ensures Inv(Run(s, evs))
    ensures SafeRun(s, evs)
    decreases |evs|
  {
    if evs != [] {
      StepKeepsInv(s, evs[0]);
      AdmissibleRunIsSafe(Step(s, evs[0]).next, evs[1..]);
    }
  }

  /**
   From mount on, whatever the order of admissible events: the index stays in
   [-1, n-1] once loaded (0 before), there is one handle per card, and every
   swipe or restore command addresses an existing card.
   */
  lemma ReachableStatesAreSafe(evs: seq<Event>)
    requires Admissible(Initial(), evs)
    ensures Inv(Run(Initial(), evs))
    ensures SafeRun(Initial(), evs)
    ensures Run(Initial(), evs).currentIndex >= -1
  {
    AdmissibleRunIsSafe(Initial(), evs);
  }

  /** Without a load in `evs`, the first event is no load and the rest has none either. */
  lemma NoLoadTail(evs: seq<Event>)
    requires NoLoad(evs) && evs != []
    ensures !evs[0].ListingsArrived?
    ensures NoLoad(evs[1..])
  {
    forall i | 0 <= i < |evs[1..]| ensures !evs[1..][i].ListingsArrived? {
      assert evs[1..][i] == evs[i + 1];
    }
  }

  /** Only a load replaces the deck: without one, the deck and its handles stay as they are. */
  lemma {:induction false} DeckFixedWithoutLoad(s: State, evs: seq<Event>)
    requires NoLoad(evs)
    ensures Run(s, evs).db == s.db
    ensures Run(s, evs).refs == s.refs
    decreases |evs|
  {
    if evs != [] {
      NoLoadTail(evs);
      DeckFixedWithoutLoad(Step(s, evs[0]).next, evs[1..]);
    }
  }

  /** Only a load makes the mirror diverge: without one, a synchronised state stays synchronised. */
  lemma {:induction false} SyncedWithoutLoad(s: State, evs: seq<Event>)
    requires Synced(s) && NoLoad(evs)
    ensures Synced(Run(s, evs))
    decreases |evs|
  {
    if evs != [] {
      NoLoadTail(evs);
      SyncedWithoutLoad(Step(s, evs[0]).next, evs[1..]);
    }
  }

  /** Distinct slugs open distinct pages. */
  lemma NavigationUrlInjective(a: string, b: string)
    requires NavigationUrl(a) == NavigationUrl(b)
    ensures a == b
  {
    assert a == NavigationUrl(a)[|ProjectUrlPrefix|..];
    assert b == NavigationUrl(b)[|ProjectUrlPrefix|..];
  }

  /** Undo right after swiping the top card puts index and mirror back and restores that card. */
  lemma UndoAfterSwipe(s: State, dir: Dir)
    requires Inv(s) && 0 <= s.currentIndex < |s.db|
    ensures GoBack(Swiped(s, dir, s.currentIndex).next).next.currentIndex == s.currentIndex
    ensures Synced(GoBack(Swiped(s, dir, s.currentIndex).next).next)
    ensures GoBack(Swiped(s, dir, s.currentIndex).next).cmd == Some(RestoreCard(s.currentIndex))
  {
  }

  /** Before the listings arrive, neither Pass/Like nor Undo does anything. */
  lemma NothingHappensBeforeLoad(dir: Dir)
    ensures Swipe(Initial(), dir) == Outcome(Initial(), None)
    ensures GoBack(Initial()) == Outcome(Initial(), None)
  {
  }

  /**
   The load leaves the mirror at its mount value: with three cards, index 2 and
   mirror 0. `outOfFrame` reads the mirror, so card 2 leaving the screen then
   triggers no restore although `currentIndex >= 2`.
   */
  lemma MirrorStaleAfterLoad(a: Listing, b: Listing, c: Listing)
    ensures Load(Initial(), ListingsReceived([a, b, c])).currentIndex == 2
    ensures Load(Initial(), ListingsReceived([a, b, c])).indexRef == 0
    ensures OutOfFrame(Load(Initial(), ListingsReceived([a, b, c])), 2).cmd == None
  {
  }

  /**
   Deck [A, B, C]: load, swipe C left, swipe B right, undo. The index runs
   2, 1, 0, 1; only B's right swipe navigates; undo restores card 1.
   */
  lemma ThreeCardScenario(a: Listing, c: Listing, bSlug: string)
    requires bSlug != ""
    ensures var b := Listing(Some(bSlug), "B");
            var s0 := Load(Initial(), ListingsReceived([a, b, c]));
            var o1 := Swiped(s0, Left, 2);
            var o2 := Swiped(o1.next, Right, 1);
            var o3 := GoBack(o2.next);
            && s0.currentIndex == 2
            && o1.next.currentIndex == 1 && o1.cmd == None
            && o2.next.currentIndex == 0 && o2.cmd == Some(Navigate(NavigationUrl(bSlug)))
            && o3.next.currentIndex == 1 && o3.cmd == Some(RestoreCard(1))
  {
  }
}
