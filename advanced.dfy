/**
 The `Advanced` component as an object: its React state values and the
 `currentIndexRef` mirror are fields, each event handler is a method. Handlers
 that only issue a command (`swipe`, `outOfFrame`) change nothing and return it.
 Every method is specified by the matching function of `DeckState`.
 */
module Advanced {
  import opened Wrappers
  import opened DeckState

  class Deck {
    var db: seq<Listing>
    /** Number of card handles (`childRefs`), one per deck slot. */
    var refs: nat
    var currentIndex: int
    /** `currentIndexRef.current`, written synchronously by `updateCurrentIndex`. */
    var indexRef: int
    var lastDirection: Option<Dir>
    var showModal: bool
    var selected: Slot<Detail>

    /** The fields as a `DeckState.State` value. */
    function Snapshot(): State
      reads this
    {
      State(db, refs, currentIndex, indexRef, lastDirection, showModal, selected)
    }

    ghost predicate Valid()
      reads this
    {
      Inv(Snapshot())
    }

    /** Mounting: empty deck, index and mirror 0, no direction, modal closed, selection `null`. */
    constructor ()
      ensures Snapshot() == Initial()
      ensures Valid()
    {
      db := [];
      refs := 0;
      currentIndex := 0;
      indexRef := 0;
      lastDirection := None;
      showModal := false;
      selected := Null;
    }

    function CanGoBack(): (b: bool)
      reads this
      ensures b <==> currentIndex < |db| - 1
    {
      DeckState.CanGoBack(Snapshot())
    }

    function CanSwipe(): (b: bool)
      reads this
      ensures b <==> currentIndex >= 0
    {
      DeckState.CanSwipe(Snapshot())
    }

    /** The modal's `isOpen` condition. */
    function IsOpen(): (b: bool)
      reads this
      ensures b <==> showModal && selected != Null
    {
      DeckState.IsOpen(Snapshot())
    }

    /** Completion of the listing request; a failure is only logged. */
    method FetchListingsDone(resp: ListingsResponse)
      modifies this
      ensures Snapshot() == Load(old(Snapshot()), resp)
      ensures resp.ListingsReceived? ==> db == resp.data && currentIndex == |db| - 1 && indexRef == old(indexRef)
      ensures old(Valid()) ==> Valid()
    {
      if resp.ListingsReceived? {
        db := resp.data;
        currentIndex := |resp.data| - 1;
        refs := |db|;
      }
    }

    /** Completion of the detail request: store the selection, then show the modal. */
    method FetchProjectDetailDone(resp: DetailResponse)
      modifies this
      ensures Snapshot() == FetchDetail(old(Snapshot()), resp)
      ensures resp.DetailReceived? ==> (IsOpen() <==> resp.bounty != Null)
      ensures old(Valid()) ==> Valid()
    {
      if resp.DetailReceived? {
        selected := resp.bounty;
        showModal := true;
      }
    }

    /** Sets the state value and its mirror together. */
    method UpdateCurrentIndex(val: int)
      modifies this
      ensures Snapshot() == DeckState.UpdateCurrentIndex(old(Snapshot()), val)
      ensures currentIndex == val && indexRef == val
    {
      currentIndex := val;
      indexRef := val;
    }

    /** The card callback for a swipe of card `index`; returns the navigation it opens, if any. */
    method Swiped(dir: Dir, index: int) returns (nav: Option<Command>)
      modifies this
      ensures Snapshot() == DeckState.Swiped(old(Snapshot()), dir, index).next
      ensures nav == DeckState.Swiped(old(Snapshot()), dir, index).cmd
      ensures currentIndex == index - 1 && indexRef == index - 1 && db == old(db)
      ensures old(Valid()) && 0 <= index < |db| ==> Valid()
    {
      lastDirection := Some(dir);
      UpdateCurrentIndex(index - 1);
      nav := None;
      if dir == Right {
        var currentProject := CardAt(db, index);
        if currentProject.Some? && Truthy(currentProject.value.slug) {
          nav := Some(Navigate(NavigationUrl(currentProject.value.slug.value)));
        }
      }
    }

    /** The card callback after card `idx` left the screen; restores it when the mirror is at or above it. */
    method OutOfFrame(idx: int) returns (cmd: Option<Command>)
      ensures cmd == DeckState.OutOfFrame(Snapshot(), idx).cmd
      ensures cmd.Some? <==> indexRef >= idx
      ensures cmd.Some? ==> cmd.value == RestoreCard(idx)
      ensures Valid() && 0 <= idx < |db| ==> Addressable(cmd, refs)
    {
      cmd := None;
      if indexRef >= idx {
        cmd := Some(RestoreCard(idx));
      }
    }

    /** The Pass and Like buttons: command the top card, if there is one, to leave in `dir`. */
    method Swipe(dir: Dir) returns (cmd: Option<Command>)
      ensures cmd == DeckState.Swipe(Snapshot(), dir).cmd
      ensures cmd.Some? <==> 0 <= currentIndex < |db|
      ensures cmd.Some? ==> cmd.value == SwipeCard(currentIndex, dir) && 0 <= cmd.value.card < |db|
    {
      cmd := None;
      if CanSwipe() && currentIndex < |db| {
        cmd := Some(SwipeCard(currentIndex, dir));
      }
    }

    /** The Undo button: bring back the card above the top one, if there is one. */
    method GoBack() returns (cmd: Option<Command>)
      modifies this
      ensures Snapshot() == DeckState.GoBack(old(Snapshot())).next
      ensures cmd == DeckState.GoBack(old(Snapshot())).cmd
      ensures old(currentIndex) >= -1 ==> Addressable(cmd, |db|)
      ensures old(Valid()) ==> Addressable(cmd, refs)
      ensures old(Valid()) ==> Valid()
    {
      if !CanGoBack() {
        return None;
      }
      var newIndex := currentIndex + 1;
      UpdateCurrentIndex(newIndex);
      cmd := Some(RestoreCard(newIndex));
    }

    /** The overlay click and the close button of the modal. */
    method CloseModal()
      modifies this
      ensures Snapshot() == DeckState.CloseModal(old(Snapshot()))
      ensures !IsOpen() && selected == old(selected)
      ensures old(Valid()) ==> Valid()
    {
      showModal := false;
    }
  }

  /**
   `formatDate`: a missing or empty date renders as the empty string; any other
   date is handed to the host's locale formatting, given here as `localeFormat`.
   */
  function FormatDate(dateString: Option<string>, localeFormat: string -> string): (r: string)
    ensures dateString == None || dateString == Some("") ==> r == ""
    ensures dateString.Some? && dateString.value != "" ==> r == localeFormat(dateString.value)
  {
    if dateString.None? || dateString.value == "" then "" else localeFormat(dateString.value)
  }
}
