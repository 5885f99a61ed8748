/** The study-session screen of the flashcard application: the deck is loaded
    once, then the user flips the shown card, advances to the next one, restarts
    or jumps to every tenth card, until the back of the last card is clicked and
    the session navigates home.

    The React state of the screen is modelled twice: as the value `State`, on
    which the pure transition functions below are the specification, and as the
    class `StudySession`, whose fields the handler methods update in place. */
module PlayDeck {

  datatype Option<T> = None | Some(value: T)

  /** A card as the backend's get_deck_cards command returns it (numeric id). */
  datatype FetchedCard = FetchedCard(id: int, front: string, back: string)

  datatype DeckDetail = DeckDetail(title: string, categoryName: Option<string>, cards: seq<FetchedCard>)

  /** What the one backend call delivers: a deck, or a failure of any kind. */
  datatype FetchResult = Fetched(detail: DeckDetail) | FetchFailed

  /** A card as the screen keeps it, its id turned into text. */
  datatype DeckCard = DeckCard(id: string, front: string, back: string)

  /** The screen's state: title, cards, loading, currentIndex, isFlipped. */
  datatype State = State(title: string, cards: seq<DeckCard>, loading: bool, currentIndex: int, isFlipped: bool)

  /** What one click on the card surface does: stay on the screen in a new
      state, or leave it by navigating to the home route. */
  datatype ClickOutcome = Stay(next: State) | NavigateHome

  /** The screen as the render function shows it: a loading view, the
      empty-deck view, or one card with one of its faces. */
  datatype Phase = Loading | Empty | ShowingCard(index: int, backShown: bool)

  const FLIP_CAPTION: string := "クリックでめくる"
  const FINISH_CAPTION: string := "クリックで終了"
  const NEXT_CAPTION: string := "クリックで次のカードへ"

  /** The state when the screen mounts, before the backend has answered. */
  function Initial(): State {
    State("", [], true, 0, false)
  }

  /** The invariant of every reachable state: the index is never negative and
      is a valid index whenever there are cards, and nothing has moved while
      the deck is still loading. */
  predicate Consistent(s: State) {
    && 0 <= s.currentIndex
    && (s.cards != [] ==> s.currentIndex < |s.cards|)
    && (s.loading ==> s.cards == [] && s.currentIndex == 0 && !s.isFlipped)
  }

  /** The card surface and the buttons exist only when the early returns of
      the render function are not taken. */
  predicate Interactive(s: State) {
    !s.loading && s.cards != []
  }

  /** The early returns of the render function. */
  function PhaseOf(s: State): (p: Phase)
    ensures p.Loading? <==> s.loading
    ensures p.Empty? <==> !s.loading && s.cards == []
    ensures p.ShowingCard? <==> Interactive(s)
    ensures p.ShowingCard? ==> p.index == s.currentIndex && p.backShown == s.isFlipped
    ensures Consistent(s) && p.ShowingCard? ==> 0 <= p.index < |s.cards|
  {
    if s.loading then Loading
    else if s.cards == [] then Empty
    else ShowingCard(s.currentIndex, s.isFlipped)
  }

  /** The card read unguarded by the render function. */
  function CurrentCard(s: State): (c: DeckCard)
    requires Consistent(s) && Interactive(s)
    ensures c in s.cards
  {
    s.cards[s.currentIndex]
  }

  // ---------------------------------------------------------------------------
  // Load completion

  /** The fetched cards with each id turned into text by `idText` (the
      JavaScript String conversion), in the same order. */
  function NormalizeCards(fetched: seq<FetchedCard>, idText: int -> string): (cards: seq<DeckCard>)
    ensures |cards| == |fetched|
    ensures forall i :: 0 <= i < |fetched| ==>
              cards[i] == DeckCard(idText(fetched[i].id), fetched[i].front, fetched[i].back)
  {
    if fetched == [] then []
    else [DeckCard(idText(fetched[0].id), fetched[0].front, fetched[0].back)]
         + NormalizeCards(fetched[1..], idText)
  }

  /** What the loader does once the backend call has settled. */
  function CompleteLoad(s: State, result: FetchResult, idText: int -> string): (r: State)
    ensures !r.loading
    ensures r.currentIndex == s.currentIndex && r.isFlipped == s.isFlipped
    ensures result.Fetched? ==>
              && r.title == result.detail.title
              && |r.cards| == |result.detail.cards|
              && forall i :: 0 <= i < |r.cards| ==>
                   r.cards[i].id == idText(result.detail.cards[i].id)
                   && r.cards[i].front == result.detail.cards[i].front
                   && r.cards[i].back == result.detail.cards[i].back
    ensures result.FetchFailed? ==> r.cards == s.cards && r.title == s.title
  {
    match result
    case Fetched(d) => s.(title := d.title, cards := NormalizeCards(d.cards, idText), loading := false)
    case FetchFailed => s.(loading := false)
  }

  /** From the mounted state, the load leads to the first card's front when the
      backend delivered at least one card, and to the empty-deck view when it
      delivered none or failed. */
  lemma LoadFromMount(result: FetchResult, idText: int -> string)
    ensures Consistent(CompleteLoad(Initial(), result, idText))
    ensures PhaseOf(CompleteLoad(Initial(), result, idText))
            == if result.Fetched? && result.detail.cards != [] then ShowingCard(0, false) else Empty
  {
  }

  // ---------------------------------------------------------------------------
  // Card click, restart and jump

  /** A click on the card surface. */
  function Click(s: State): (o: ClickOutcome)
    ensures o.Stay? ==> o.next.cards == s.cards && o.next.title == s.title && o.next.loading == s.loading
    ensures o.NavigateHome? <==> s.isFlipped && s.currentIndex >= |s.cards| - 1
    ensures o.Stay? && !s.isFlipped ==> o.next.currentIndex == s.currentIndex && o.next.isFlipped
    ensures o.Stay? && s.isFlipped ==> o.next.currentIndex == s.currentIndex + 1 && !o.next.isFlipped
  {
    if !s.isFlipped then Stay(s.(isFlipped := true))
    else if s.currentIndex < |s.cards| - 1 then Stay(s.(currentIndex := s.currentIndex + 1, isFlipped := false))
    else NavigateHome
  }

  /** Restart goes back to the front of the first card, keeping the deck. */
  function Restart(s: State): (r: State)
    ensures r.currentIndex == 0 && !r.isFlipped
    ensures r.cards == s.cards && r.title == s.title && r.loading == s.loading
  {
    s.(currentIndex := 0, isFlipped := false)
  }

  /** Jump to a card: no bounds check, the callers supply a valid index. */
  function GoToCard(s: State, targetIndex: int): (r: State)
    ensures r.currentIndex == targetIndex && !r.isFlipped
    ensures r.cards == s.cards && r.title == s.title && r.loading == s.loading
  {
    s.(currentIndex := targetIndex, isFlipped := false)
  }

  /** Every handler keeps the invariant, the jump whenever its target is a
      valid index; a click that stays keeps the card surface on screen. */
  lemma HandlersKeepConsistent(s: State, targetIndex: int)
    requires Consistent(s) && Interactive(s)
    ensures Click(s).Stay? ==> Consistent(Click(s).next) && Interactive(Click(s).next)
    ensures Consistent(Restart(s)) && Interactive(Restart(s))
    ensures Consistent(GoToCard(s, targetIndex)) <==> 0 <= targetIndex < |s.cards|
  {
  }

  lemma RestartIdempotent(s: State)
    ensures Restart(Restart(s)) == Restart(s)
  {
  }

  /** The two-phase cycle per card: front, back, then the next card's front,
      or the end of the session after the back of the last card. */
  lemma ClickCycle(s: State)
    requires Consistent(s) && Interactive(s)
    ensures !s.isFlipped ==> Click(s) == Stay(s.(isFlipped := true))
    ensures s.isFlipped && !IsLastCard(s) ==> Click(s) == Stay(s.(currentIndex := s.currentIndex + 1, isFlipped := false))
    ensures Click(s).NavigateHome? <==> IsLastCardBack(s)
  {
  }

  // ---------------------------------------------------------------------------
  // A whole session

  /** The outcome of `k` successive clicks on the card surface. */
  function Clicks(s: State, k: nat): ClickOutcome
    decreases k
  {
    if k == 0 then Stay(s)
    else match Click(s)
      case NavigateHome => NavigateHome
      case Stay(t) => Clicks(t, k - 1)
  }

  /** Clicking through the deck from a front shows each later card in turn,
      front then back, without skipping one. */
  lemma {:induction false} ClicksVisitInOrder(s: State, k: nat)
    requires Consistent(s) && Interactive(s) && !s.isFlipped
    requires k < 2 * (|s.cards| - s.currentIndex)
    ensures Clicks(s, k) == Stay(s.(currentIndex := s.currentIndex + k / 2, isFlipped := k % 2 == 1))
    decreases k
  {
    if k == 1 {
      assert Clicks(s, 1) == Clicks(s.(isFlipped := true), 0);
    } else if k >= 2 {
      var back := s.(isFlipped := true);
      var t := s.(currentIndex := s.currentIndex + 1, isFlipped := false);
      assert Clicks(s, k) == Clicks(back, k - 1);
      assert Clicks(back, k - 1) == Clicks(t, k - 2);
      ClicksVisitInOrder(t, k - 2);
      assert t.(currentIndex := t.currentIndex + (k - 2) / 2, isFlipped := (k - 2) % 2 == 1)
          == s.(currentIndex := s.currentIndex + k / 2, isFlipped := k % 2 == 1);
    }
  }

  /** Two clicks per remaining card end the session, and not one click earlier. */
  lemma {:induction false} SessionEndsAfterTwoClicksPerCard(s: State)
    requires Consistent(s) && Interactive(s) && !s.isFlipped
    ensures Clicks(s, 2 * (|s.cards| - s.currentIndex)) == NavigateHome
    ensures forall k: nat :: k < 2 * (|s.cards| - s.currentIndex) ==>
              Clicks(s, k).Stay? && Clicks(s, k).next.currentIndex == s.currentIndex + k / 2
    decreases |s.cards| - s.currentIndex
  {
    var back := s.(isFlipped := true);
    var n := 2 * (|s.cards| - s.currentIndex);
    if s.currentIndex == |s.cards| - 1 {
      assert Clicks(s, 2) == Clicks(back, 1);
      assert Clicks(back, 1) == NavigateHome;
    } else {
      var t := s.(currentIndex := s.currentIndex + 1, isFlipped := false);
      assert Clicks(s, n) == Clicks(back, n - 1);
      assert Clicks(back, n - 1) == Clicks(t, n - 2);
      SessionEndsAfterTwoClicksPerCard(t);
    }
    forall k: nat | k < n
      ensures Clicks(s, k).Stay? && Clicks(s, k).next.currentIndex == s.currentIndex + k / 2
    {
      ClicksVisitInOrder(s, k);
    }
  }

  // ---------------------------------------------------------------------------
  // Jump buttons

  /** The jump targets offered for a deck of `count` cards: 10, 20, ... up to
      `count`. */
  function JumpTargets(count: nat): (targets: seq<int>)
    ensures |targets| == count / 10
    ensures forall i, j :: 0 <= i < j < |targets| ==> targets[i] < targets[j]
    ensures forall t :: t in targets <==> 10 <= t <= count && t % 10 == 0
  {
    var targets := seq(count / 10, i => 10 * (i + 1));
    assert forall t :: 10 <= t <= count && t % 10 == 0 ==> targets[t / 10 - 1] == t;
    targets
  }

  /** The loop that builds the jump buttons from the loaded cards. */
  method GetJumpButtons(cards: seq<DeckCard>) returns (buttons: seq<int>)
    ensures buttons == JumpTargets(|cards|)
  {
    buttons := [];
    var target := 10;
    while target <= |cards|
      invariant target == 10 * (|buttons| + 1)
      invariant 10 * |buttons| <= |cards|
      invariant forall i :: 0 <= i < |buttons| ==> buttons[i] == 10 * (i + 1)
      decreases |cards| - target
    {
      buttons := buttons + [target];
      target := target + 10;
    }
  }

  /** The index a jump button passes on (its target minus one) is a valid
      index into the cards. */
  lemma JumpButtonIndexValid(cards: seq<DeckCard>, target: int)
    requires target in JumpTargets(|cards|)
    ensures 0 <= target - 1 < |cards|
  {
  }

  /** A deck of 25 cards offers the jumps to 10 and to 20; the one to 20 shows
      the front of the card at index 19. */
  lemma TwentyFiveCards(s: State)
    requires Consistent(s) && Interactive(s) && |s.cards| == 25
    ensures JumpTargets(|s.cards|) == [10, 20]
    ensures PhaseOf(GoToCard(s, 20 - 1)) == ShowingCard(19, false)
  {
  }

  // ---------------------------------------------------------------------------
  // Derived values

  /** The shown card is the last one: from it on, only it is left. */
  function IsLastCard(s: State): (last: bool)
    ensures last ==> s.currentIndex == |s.cards| - 1
    ensures Consistent(s) && s.cards != [] ==>
              (last <==> s.cards[s.currentIndex..] == [s.cards[|s.cards| - 1]])
  {
    s.currentIndex == |s.cards| - 1
  }

  /** The back of the last card is shown: the next click ends the session. */
  function IsLastCardBack(s: State): (lastBack: bool)
    ensures lastBack <==> s.currentIndex == |s.cards| - 1 && s.isFlipped
    ensures Consistent(s) && Interactive(s) ==> (lastBack <==> Click(s).NavigateHome?)
  {
    IsLastCard(s) && s.isFlipped
  }

  /** The caption under the card. */
  function InstructionText(s: State): (caption: string)
    ensures caption == FLIP_CAPTION <==> !s.isFlipped
    ensures caption == FINISH_CAPTION <==> IsLastCardBack(s)
    ensures caption == NEXT_CAPTION <==> s.isFlipped && !IsLastCard(s)
  {
    if !s.isFlipped then FLIP_CAPTION
    else if IsLastCard(s) then FINISH_CAPTION
    else NEXT_CAPTION
  }

  /** The caption announces what the next click does. */
  lemma CaptionPredictsClick(s: State)
    requires Consistent(s) && Interactive(s)
    ensures InstructionText(s) == FLIP_CAPTION <==> Click(s).Stay? && Click(s).next.isFlipped
    ensures InstructionText(s) == NEXT_CAPTION <==>
              Click(s).Stay? && Click(s).next.currentIndex == s.currentIndex + 1
    ensures InstructionText(s) == FINISH_CAPTION <==> Click(s).NavigateHome?
  {
  }

  /** The progress bar's percentage, as an exact rational. */
  function Progress(s: State): (percent: real)
    requires s.cards != []
    ensures percent * (|s.cards| as real) == ((s.currentIndex + 1) * 100) as real
  {
    ((s.currentIndex + 1) as real / |s.cards| as real) * 100.0
  }

  /** Progress grows with the index, starts at 100/N and reaches 100 exactly
      on the last card. */
  lemma ProgressBounds(s: State, t: State)
    requires Consistent(s) && Interactive(s) && t.cards == s.cards
    requires s.currentIndex <= t.currentIndex
    ensures Progress(s) <= Progress(t)
    ensures s.currentIndex == 0 ==> Progress(s) == 100.0 / (|s.cards| as real)
    ensures Progress(s) == 100.0 <==> IsLastCard(s)
  {
    var n := |s.cards| as real;
    assert Progress(s) * n == ((s.currentIndex + 1) * 100) as real;
    assert Progress(t) * n == ((t.currentIndex + 1) * 100) as real;
  }

  // ---------------------------------------------------------------------------
  // The screen's state, updated in place by its handlers

  class StudySession {
    var title: string
    var cards: seq<DeckCard>
    var loading: bool
    var currentIndex: int
    var isFlipped: bool

    function Snapshot(): State
      reads this
    {
      State(title, cards, loading, currentIndex, isFlipped)
    }

    predicate Valid()
      reads this
    {
      Consistent(Snapshot())
    }

    /** Mounting the screen. */
    constructor ()
      ensures Snapshot() == Initial() && Valid()
    {
      title := "";
      cards := [];
      loading := true;
      currentIndex := 0;
      isFlipped := false;
    }

    /** The backend call has settled; `failureToastRaised` says whether the
        failure notification was raised. */
    method FinishLoading(result: FetchResult, idText: int -> string) returns (failureToastRaised: bool)
      requires Valid() && loading
      modifies this
      ensures Valid()
      ensures Snapshot() == CompleteLoad(old(Snapshot()), result, idText)
      ensures failureToastRaised <==> result.FetchFailed?
    {
      LoadFromMount(result, idText);
      failureToastRaised := false;
      match result {
        case Fetched(d) =>
          title := d.title;
          cards := NormalizeCards(d.cards, idText);
        case FetchFailed =>
          failureToastRaised := true;
      }
      loading := false;
    }

    /** A click on the card surface; `navigatedHome` says the session ended. */
    method HandleCardClick() returns (navigatedHome: bool)
      requires Valid() && Interactive(Snapshot())
      modifies this
      ensures Valid() && Interactive(Snapshot())
      ensures navigatedHome <==> Click(old(Snapshot())).NavigateHome?
      ensures navigatedHome ==> Snapshot() == old(Snapshot())
      ensures !navigatedHome ==> Snapshot() == Click(old(Snapshot())).next
    {
      HandlersKeepConsistent(Snapshot(), 0);
      navigatedHome := false;
      if !isFlipped {
        isFlipped := true;
      } else {
        if currentIndex < |cards| - 1 {
          currentIndex := currentIndex + 1;
          isFlipped := false;
        } else {
          navigatedHome := true;
        }
      }
    }

    method HandleRestart()
      requires Valid() && Interactive(Snapshot())
      modifies this
      ensures Valid() && Interactive(Snapshot())
      ensures Snapshot() == Restart(old(Snapshot()))
    {
      currentIndex := 0;
      isFlipped := false;
    }

    /** Jump to a card; the state stays valid exactly when the index is one. */
    method HandleGoToCard(targetIndex: int)
      requires Valid() && Interactive(Snapshot())
      modifies this
      ensures Interactive(Snapshot())
      ensures Snapshot() == GoToCard(old(Snapshot()), targetIndex)
      ensures Valid() <==> 0 <= targetIndex < |cards|
    {
      HandlersKeepConsistent(Snapshot(), targetIndex);
      currentIndex := targetIndex;
      isFlipped := false;
    }

    /** A press on the jump button for `target`, one of the generated targets. */
    method PressJumpButton(target: int)
      requires Valid() && Interactive(Snapshot())
      requires target in JumpTargets(|cards|)
      modifies this
      ensures Valid() && Interactive(Snapshot())
      ensures Snapshot() == GoToCard(old(Snapshot()), target - 1)
      ensures currentIndex == target - 1 && !isFlipped
    {
      JumpButtonIndexValid(cards, target);
      HandleGoToCard(target - 1);
    }
  }
}
