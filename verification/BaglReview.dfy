/** The review of the button front end: a flow of steps with one step that is shown again
    and again for the signer items, between two delimiters that are never shown. */
module BaglReview {
  import opened Transactions
  import opened ReviewItems
  import opened BaglCursor

  const MAX_NUM_STEPS: nat := 14

  datatype Step =
    | ReviewStep | VoteRetractStep | VoteToStep | DstAddressStep | TokenAmountStep
    | NetworkStep | SystemFeeStep | NetworkFeeStep | TotalFeeStep | ValidUntilStep | ScriptHashStep
    | UpperDelimiter | Generic | LowerDelimiter
    | ApproveStep | RejectStep
    | NoArbitraryScriptStep | AbortStep
    | FlowEnd

  /** What the user sees. */
  datatype Screen = StepScreen(step: Step) | ItemScreen(text: Text)

  function ScriptSteps(tx: Tx): seq<Step> {
    [ReviewStep]
    + (if tx.isVote then [if tx.isRemoveVote then VoteRetractStep else VoteToStep]
       else if tx.isTransfer then [DstAddressStep, TokenAmountStep] else [])
  }

  const COMMON_STEPS: seq<Step> := [NetworkStep, SystemFeeStep, NetworkFeeStep, TotalFeeStep, ValidUntilStep]

  /** The steps before the signer items. */
  function Front(tx: Tx, showScriptHash: bool): (f: seq<Step>)
    ensures 6 <= |f| <= 9
    ensures forall k :: 0 <= k < |f| ==> f[k] !in {UpperDelimiter, Generic, LowerDelimiter, ApproveStep, FlowEnd}
  {
    ScriptSteps(tx) + COMMON_STEPS + (if showScriptHash then [ScriptHashStep] else [])
  }

  const TAIL: seq<Step> := [UpperDelimiter, Generic, LowerDelimiter, ApproveStep, RejectStep, FlowEnd]

  function Flow(tx: Tx, scriptsAllowed: bool, showScriptHash: bool): seq<Step> {
    if Allowed(tx, scriptsAllowed) then Front(tx, showScriptHash) + TAIL
    else [NoArbitraryScriptStep, AbortStep, FlowEnd]
  }

  /** The steps before the signer items that do not depend on the transaction. */
  const FIXED_STEPS: set<Step> :=
    {ReviewStep, NetworkStep, SystemFeeStep, NetworkFeeStep, TotalFeeStep, ValidUntilStep}

  /** When approval is offered each of them stands in the flow exactly once, and so do the two
      answers, which come last; the script hash only when it is asked for. Otherwise there are
      two other steps. */
  predicate StepsOnce(flow: seq<Step>, open: bool, showScriptHash: bool) {
    if open then
      && (forall step :: step in FIXED_STEPS + {ApproveStep, RejectStep} ==> multiset(flow)[step] == 1)
      && multiset(flow)[ScriptHashStep] == (if showScriptHash then 1 else 0)
      && |flow| >= 3 && flow[0] == ReviewStep && flow[|flow| - 3..] == [ApproveStep, RejectStep, FlowEnd]
    else flow == [NoArbitraryScriptStep, AbortStep, FlowEnd]
  }

  lemma FlowStepsOnce(tx: Tx, scriptsAllowed: bool, showScriptHash: bool)
    ensures StepsOnce(Flow(tx, scriptsAllowed, showScriptHash), Allowed(tx, scriptsAllowed), showScriptHash)
  {
    hide Front, TAIL;
    if Allowed(tx, scriptsAllowed) {
      forall step | step in FIXED_STEPS + {ApproveStep, RejectStep}
        ensures multiset(Front(tx, showScriptHash) + TAIL)[step] == 1
      {
        StepInFlow(tx, showScriptHash, step);
      }
      StepInFlow(tx, showScriptHash, ScriptHashStep);
      FlowEnds(tx, showScriptHash);
    }
  }

  lemma StepInFlow(tx: Tx, showScriptHash: bool, step: Step)
    requires step in FIXED_STEPS + {ApproveStep, RejectStep, ScriptHashStep}
    ensures multiset(Front(tx, showScriptHash) + TAIL)[step]
            == if step == ScriptHashStep && !showScriptHash then 0 else 1
  {
    hide Front, TAIL;
    StepInFront(tx, showScriptHash, step);
    StepInTail(step);
  }

  lemma FlowEnds(tx: Tx, showScriptHash: bool)
    ensures var flow := Front(tx, showScriptHash) + TAIL;
            |flow| >= 3 && flow[0] == ReviewStep && flow[|flow| - 3..] == [ApproveStep, RejectStep, FlowEnd]
  {
    hide ScriptSteps;
    FirstStep(tx);
  }

  lemma FirstStep(tx: Tx)
    ensures |ScriptSteps(tx)| > 0 && ScriptSteps(tx)[0] == ReviewStep
  {
  }

  lemma StepInTail(step: Step)
    ensures multiset(TAIL)[step]
            == if step in {UpperDelimiter, Generic, LowerDelimiter, ApproveStep, RejectStep, FlowEnd} then 1 else 0
  {
  }

  lemma StepInCommon(step: Step)
    ensures multiset(COMMON_STEPS)[step] == if step in FIXED_STEPS && step != ReviewStep then 1 else 0
  {
  }

  lemma StepInScript(tx: Tx, step: Step)
    requires step !in {VoteRetractStep, VoteToStep, DstAddressStep, TokenAmountStep}
    ensures multiset(ScriptSteps(tx))[step] == if step == ReviewStep then 1 else 0
  {
  }

  lemma StepInFront(tx: Tx, showScriptHash: bool, step: Step)
    requires step !in {VoteRetractStep, VoteToStep, DstAddressStep, TokenAmountStep}
    ensures multiset(Front(tx, showScriptHash))[step]
            == if step in FIXED_STEPS || (step == ScriptHashStep && showScriptHash) then 1 else 0
  {
    hide ScriptSteps, COMMON_STEPS;
    var steps, hash := ScriptSteps(tx), if showScriptHash then [ScriptHashStep] else [];
    StepInScript(tx, step);
    StepInCommon(step);
    assert multiset(steps + COMMON_STEPS + hash) == multiset(steps) + multiset(COMMON_STEPS) + multiset(hash);
  }

  /** Appends a step to the flow array. */
  method Append(flow: array<Step>, index: nat, step: Step) returns (next: nat)
    requires index < flow.Length
    modifies flow
    ensures next == index + 1 && flow[..next] == old(flow[..index]) + [step]
  {
    flow[index] := step;
    next := index + 1;
  }

  /** The flow always fits its array, to the last place. */
  method CreateTransactionFlow(tx: Tx, scriptsAllowed: bool, showScriptHash: bool)
    returns (flow: array<Step>, index: nat)
    ensures flow.Length == MAX_NUM_STEPS + 1 && index <= flow.Length
    ensures flow[..index] == Flow(tx, scriptsAllowed, showScriptHash)
    ensures StepsOnce(flow[..index], Allowed(tx, scriptsAllowed), showScriptHash)
  {
    hide StepsOnce;
    FlowStepsOnce(tx, scriptsAllowed, showScriptHash);
    flow := new Step[MAX_NUM_STEPS + 1](_ => FlowEnd);
    index := 0;
    assert flow[..index] == [];
    if !tx.isTransfer && !tx.isVote && !scriptsAllowed {
      index := Append(flow, index, NoArbitraryScriptStep);
      index := Append(flow, index, AbortStep);
      index := Append(flow, index, FlowEnd);
      return;
    }
    index := CreateFront(flow, tx, showScriptHash);
    index := CreateTail(flow, index);
  }

  /** The three special steps, then the answers. */
  method CreateTail(flow: array<Step>, index: nat) returns (next: nat)
    requires index + 6 <= flow.Length
    modifies flow
    ensures next == index + 6 && flow[..next] == old(flow[..index]) + TAIL
  {
    next := Append(flow, index, UpperDelimiter);
    next := Append(flow, next, Generic);
    next := Append(flow, next, LowerDelimiter);
    next := Append(flow, next, ApproveStep);
    next := Append(flow, next, RejectStep);
    next := Append(flow, next, FlowEnd);
  }

  method CreateScriptSteps(flow: array<Step>, tx: Tx) returns (index: nat)
    requires flow.Length == MAX_NUM_STEPS + 1
    modifies flow
    ensures index <= 3 && flow[..index] == ScriptSteps(tx)
  {
    index := Append(flow, 0, ReviewStep);
    if tx.isVote {
      if tx.isRemoveVote {
        index := Append(flow, index, VoteRetractStep);
      } else {
        index := Append(flow, index, VoteToStep);
      }
    } else if tx.isTransfer {
      index := Append(flow, index, DstAddressStep);
      index := Append(flow, index, TokenAmountStep);
    }
  }

  method CreateFront(flow: array<Step>, tx: Tx, showScriptHash: bool) returns (index: nat)
    requires flow.Length == MAX_NUM_STEPS + 1
    modifies flow
    ensures index <= 9 && flow[..index] == Front(tx, showScriptHash)
  {
    index := CreateScriptSteps(flow, tx);
    index := Append(flow, index, NetworkStep);
    index := Append(flow, index, SystemFeeStep);
    index := Append(flow, index, NetworkFeeStep);
    index := Append(flow, index, TotalFeeStep);
    index := Append(flow, index, ValidUntilStep);
    if showScriptHash {
      index := Append(flow, index, ScriptHashStep);
    }
  }

  // ---- the linear review ----

  function StepScreens(steps: seq<Step>): (r: seq<Screen>)
    ensures |r| == |steps|
  {
    seq(|steps|, k requires 0 <= k < |steps| => StepScreen(steps[k]))
  }

  ghost function ItemScreens(tx: Tx): (r: seq<Screen>)
    requires Displayable(tx)
    ensures |r| == |AllItems(tx)|
  {
    seq(|AllItems(tx)|, k requires 0 <= k < |AllItems(tx)| =>
          ItemHere(tx, k); ItemScreen(Render(tx, AllItems(tx)[k])))
  }

  lemma ItemHere(tx: Tx, k: nat)
    requires Displayable(tx) && k < |AllItems(tx)|
    ensures ValidStop(tx, AllItems(tx)[k]) && IsItem(AllItems(tx)[k])
  {
    ListedItem(tx, tx.signersSize, k);
  }

  /** The review as the user should experience it: all screens, one after the other. */
  ghost function Screens(tx: Tx, scriptsAllowed: bool, showScriptHash: bool): seq<Screen>
    requires Displayable(tx)
  {
    if Allowed(tx, scriptsAllowed) then
      StepScreens(Front(tx, showScriptHash)) + ItemScreens(tx) + StepScreens([ApproveStep, RejectStep])
    else StepScreens([NoArbitraryScriptStep, AbortStep])
  }

  lemma Neighbours(tx: Tx, k: nat)
    requires Displayable(tx) && k + 1 < |Stops(tx)|
    ensures var p, q := Stops(tx)[k], Stops(tx)[k + 1];
            && ValidStop(tx, p) && ValidStop(tx, q) && Successor(tx, p) == q && Predecessor(tx, q) == p
            && !p.Finish? && !q.Begin?
  {
    hide Successor, Predecessor, Position, Stops;
    PositionOfStop(tx, k);
    PositionOfStop(tx, k + 1);
    EndsApart(tx, k);
    var p, q := Stops(tx)[k], Stops(tx)[k + 1];
    MovesAreSteps(tx, p);
    MovesAreSteps(tx, q);
    StopAtPosition(tx, Successor(tx, p));
    StopAtPosition(tx, Predecessor(tx, q));
  }

  /** There is an item next to each end of the list. */
  lemma Neighbourhood(tx: Tx, p: Stop)
    requires Displayable(tx) && ValidStop(tx, p)
    ensures p.Begin? ==> IsItem(Successor(tx, p))
    ensures p.Finish? ==> IsItem(Predecessor(tx, p))
    ensures IsItem(p) && !IsItem(Successor(tx, p)) ==> Successor(tx, p).Finish?
    ensures IsItem(p) && !IsItem(Predecessor(tx, p)) ==> Predecessor(tx, p).Begin?
    ensures IsItem(p) <==> !p.Begin? && !p.Finish?
  {
  }

  lemma EndsApart(tx: Tx, k: nat)
    requires Displayable(tx) && k + 1 < |Stops(tx)|
    ensures !Stops(tx)[k].Finish? && !Stops(tx)[k + 1].Begin?
  {
    PositionOfStop(tx, k);
    PositionOfStop(tx, k + 1);
  }

  /** The steps that every review with an approval shows. */
  ghost predicate FixedShown(showScriptHash: bool, shown: set<Screen>) {
    && StepScreen(ReviewStep) in shown && StepScreen(NetworkStep) in shown
    && StepScreen(SystemFeeStep) in shown && StepScreen(NetworkFeeStep) in shown && StepScreen(TotalFeeStep) in shown
    && StepScreen(ValidUntilStep) in shown && (showScriptHash ==> StepScreen(ScriptHashStep) in shown)
  }

  /** The steps of a vote or of a transfer. */
  ghost predicate ScriptShown(tx: Tx, shown: set<Screen>) {
    && (tx.isVote && tx.isRemoveVote ==> StepScreen(VoteRetractStep) in shown)
    && (tx.isVote && !tx.isRemoveVote ==> StepScreen(VoteToStep) in shown)
    && (!tx.isVote && tx.isTransfer ==> StepScreen(DstAddressStep) in shown && StepScreen(TokenAmountStep) in shown)
  }

  /** All screens of signer number `s`. */
  ghost predicate SignerShown(signer: Signer, s: nat, of: nat, shown: set<Screen>)
    requires signer.contractsSize <= |signer.contracts| && signer.groupsSize <= |signer.groups|
  {
    var c, g := signer.contractsSize, signer.groupsSize;
    && ItemScreen(SignerText(s + 1, of)) in shown && ItemScreen(AccountText(signer.account)) in shown
    && ItemScreen(ScopeText(signer.scope)) in shown
    && (forall j :: 0 <= j < c ==> ItemScreen(ContractText(j + 1, c, signer.contracts[j])) in shown)
    && (forall j :: 0 <= j < g ==> ItemScreen(GroupText(j + 1, g, signer.groups[j])) in shown)
  }

  /** Every screen before the approval has been on display. */
  ghost predicate AllShown(tx: Tx, showScriptHash: bool, shown: set<Screen>) {
    && Displayable(tx) && FixedShown(showScriptHash, shown) && ScriptShown(tx, shown)
    && forall s :: 0 <= s < tx.signersSize ==> SignerShown(tx.signers[s], s, tx.signersSize, shown)
  }

  lemma StepsShown(tx: Tx, showScriptHash: bool, shown: set<Screen>)
    requires forall step :: step in Front(tx, showScriptHash) ==> StepScreen(step) in shown
    ensures FixedShown(showScriptHash, shown) && ScriptShown(tx, shown)
  {
    var f, steps := Front(tx, showScriptHash), ScriptSteps(tx);
    assert forall step :: step in steps ==> step in f;
    assert steps[0] == ReviewStep && (tx.isVote || tx.isTransfer ==> steps[1] in f);
    assert forall k :: 0 <= k < 5 ==> f[|steps| + k] == COMMON_STEPS[k];
    assert f[|steps|] in f && f[|steps| + 1] in f && f[|steps| + 2] in f && f[|steps| + 3] in f && f[|steps| + 4] in f;
    if showScriptHash { assert f[|steps| + 5] == ScriptHashStep; }
  }

  lemma SignerItemsShown(tx: Tx, s: nat, shown: set<Screen>)
    requires Displayable(tx) && s < tx.signersSize
    requires forall p :: ValidStop(tx, p) && IsItem(p) ==> ItemScreen(Render(tx, p)) in shown
    ensures SignerShown(tx.signers[s], s, tx.signersSize, shown)
  {
    var signer := tx.signers[s];
    assert ItemScreen(Render(tx, SignerStop(s))) in shown && ItemScreen(Render(tx, AccountStop(s))) in shown;
    assert ItemScreen(Render(tx, ScopeStop(s))) in shown;
    forall j | 0 <= j < signer.contractsSize
      ensures ItemScreen(ContractText(j + 1, signer.contractsSize, signer.contracts[j])) in shown
    {
      assert ItemScreen(Render(tx, ContractStop(s, j))) in shown;
    }
    forall j | 0 <= j < signer.groupsSize
      ensures ItemScreen(GroupText(j + 1, signer.groupsSize, signer.groups[j])) in shown
    {
      assert ItemScreen(Render(tx, GroupStop(s, j))) in shown;
    }
  }

  datatype Choice = NoChoice | Approved | Rejected

  class Review {
    const tx: Tx
    const scriptsAllowed: bool
    const showScriptHash: bool
    const flow: seq<Step>
    var index: nat       // the step of the flow
    var dynamic: bool    // whether the generic step is showing an item
    var text: Text       // what the generic step shows
    const cursor: Cursor
    ghost var position: nat       // the place in the linear review
    ghost var shown: set<Screen>  // every screen that has been on display

    ghost predicate Open() {
      Allowed(tx, scriptsAllowed)
    }

    ghost function FrontLength(): nat {
      |Front(tx, showScriptHash)|
    }

    /** The stop the cursor stands at when the review is at `pos`. */
    ghost function StopAt(pos: nat): (p: Stop)
      requires Displayable(tx)
      ensures ValidStop(tx, p)
      ensures IsItem(p) <==> FrontLength() <= pos < FrontLength() + |AllItems(tx)|
      ensures p.Begin? <==> pos < FrontLength()
    {
      if pos < FrontLength() then Begin(0)
      else if pos < FrontLength() + |AllItems(tx)| then
        ItemHere(tx, pos - FrontLength());
        AllItems(tx)[pos - FrontLength()]
      else Finish(tx.signersSize - 1)
    }

    ghost function IndexAt(pos: nat): nat
      requires Displayable(tx)
    {
      if !Open() || pos < FrontLength() then pos
      else if pos < FrontLength() + |AllItems(tx)| then FrontLength() + 1
      else pos - |AllItems(tx)| + 3
    }

    lemma FlowShape()
      requires Open() && flow == Flow(tx, scriptsAllowed, showScriptHash)
      ensures |flow| == FrontLength() + 6
      ensures forall k :: 0 <= k < FrontLength() ==> flow[k] == Front(tx, showScriptHash)[k]
      ensures var b := FrontLength();
              flow[b] == UpperDelimiter && flow[b + 1] == Generic && flow[b + 2] == LowerDelimiter
              && flow[b + 3] == ApproveStep && flow[b + 4] == RejectStep && flow[b + 5] == FlowEnd
    {
    }

    /** Without an approval there are two screens. */
    lemma ClosedShape()
      requires !Open() && flow == Flow(tx, scriptsAllowed, showScriptHash) && Displayable(tx)
      ensures flow == [NoArbitraryScriptStep, AbortStep, FlowEnd]
      ensures Screens(tx, scriptsAllowed, showScriptHash) == [StepScreen(NoArbitraryScriptStep), StepScreen(AbortStep)]
    {
    }

    /** Where the special steps are, and nowhere else. */
    lemma FlowMarks(k: nat)
      requires flow == Flow(tx, scriptsAllowed, showScriptHash) && k < |flow|
      ensures |flow| == if Open() then FrontLength() + 6 else 3
      ensures flow[k] == UpperDelimiter <==> Open() && k == FrontLength()
      ensures flow[k] == LowerDelimiter <==> Open() && k == FrontLength() + 2
      ensures flow[k] == FlowEnd <==> k == |flow| - 1
      ensures flow[k] == ApproveStep ==> Open() && (k < FrontLength() || k == FrontLength() + 3)
    {
      if Open() && k < FrontLength() {
        assert flow[k] == Front(tx, showScriptHash)[k];
      }
    }

    lemma FlowLength()
      requires flow == Flow(tx, scriptsAllowed, showScriptHash)
      ensures |flow| == if Open() then FrontLength() + 6 else 3
    {
    }

    lemma ScreensShape()
      requires Displayable(tx)
      ensures var n := |Screens(tx, scriptsAllowed, showScriptHash)|;
              n == if Open() then FrontLength() + |AllItems(tx)| + 2 else 2
      ensures Open() ==> forall k :: 0 <= k < FrontLength() ==>
                Screens(tx, scriptsAllowed, showScriptHash)[k] == StepScreen(Front(tx, showScriptHash)[k])
      ensures Open() ==> forall k :: FrontLength() <= k < FrontLength() + |AllItems(tx)| ==>
                Screens(tx, scriptsAllowed, showScriptHash)[k] == ItemScreen(Render(tx, StopAt(k)))
      ensures Open() ==> var e := FrontLength() + |AllItems(tx)|;
                Screens(tx, scriptsAllowed, showScriptHash)[e] == StepScreen(ApproveStep)
                && Screens(tx, scriptsAllowed, showScriptHash)[e + 1] == StepScreen(RejectStep)
    {
    }

    /** Between the front and the end, the stops are consecutive. */
    lemma StopsAdjacent(pos: nat)
      requires Displayable(tx) && FrontLength() <= pos + 1 <= FrontLength() + |AllItems(tx)|
      ensures Successor(tx, StopAt(pos)) == StopAt(pos + 1) && Predecessor(tx, StopAt(pos + 1)) == StopAt(pos)
      ensures !StopAt(pos).Finish? && !StopAt(pos + 1).Begin?
    {
      var k := pos + 1 - FrontLength();
      assert StopAt(pos) == Stops(tx)[k] && StopAt(pos + 1) == Stops(tx)[k + 1];
      Neighbours(tx, k);
    }

    /** The four indices, the mode and the text agree with the stop. */
    ghost predicate CursorAt(p: Stop)
      requires Displayable(tx) && ValidStop(tx, p)
      reads `dynamic, `text, cursor
    {
      cursor.Stands(tx, p) && dynamic == IsItem(p) && (dynamic ==> text == Render(tx, p))
    }

    /** The machine is where the linear review is: the step, the mode, the four indices and
        the text all agree with the position. */
    ghost predicate InStep()
      reads this, cursor
    {
      && Displayable(tx) && flow == Flow(tx, scriptsAllowed, showScriptHash)
      && position < |Screens(tx, scriptsAllowed, showScriptHash)|
      && index == IndexAt(position) && (Open() ==> CursorAt(StopAt(position)))
    }

    /** And all screens up to the position have been shown. */
    ghost predicate Valid()
      reads this, cursor
    {
      InStep() && forall k :: 0 <= k <= position ==> Screens(tx, scriptsAllowed, showScriptHash)[k] in shown
    }

    /** What is on display now. */
    function Current(): Screen
      requires index < |flow|
      reads this
    {
      if flow[index] == Generic then ItemScreen(text) else StepScreen(flow[index])
    }

    constructor (tx: Tx, scriptsAllowed: bool, showScriptHash: bool)
      requires Displayable(tx)
      ensures Valid() && position == 0 && fresh(cursor)
      ensures this.tx == tx && this.scriptsAllowed == scriptsAllowed && this.showScriptHash == showScriptHash
    {
      hide StepsOnce;
      this.tx, this.scriptsAllowed, this.showScriptHash := tx, scriptsAllowed, showScriptHash;
      var steps, n := CreateTransactionFlow(tx, scriptsAllowed, showScriptHash);
      flow := steps[..n];
      index, dynamic, text, position := 0, false, NoText, 0;
      cursor := new Cursor();
      shown := {};
      new;
      OnDisplay();
      shown := {Current()};
    }

    /** Runs when a delimiter is entered: fetches the next item in the right direction and
        leaves the delimiter again, to the generic step or to a static neighbour. */
    method DisplayNextState(isUpper: bool, ghost p: Stop)
      requires Displayable(tx) && ValidStop(tx, p) && CursorAt(p)
      requires index > 0 && (p.Begin? ==> isUpper) && (p.Finish? ==> !isUpper)
      modifies this`index, this`dynamic, this`text, cursor
      ensures var q := if isUpper == IsItem(p) then Predecessor(tx, p) else Successor(tx, p);
              && ValidStop(tx, q) && CursorAt(q)
              && index == if IsItem(q) then old(index) + (if isUpper then 1 else -1)
                          else old(index) + (if q.Begin? then -1 else 1)
    {
      hide Render, Rep, Successor, Predecessor, Position, IsItem;
      MovesAreSteps(tx, p);
      Neighbourhood(tx, p);
      var found, data;
      if isUpper {
        if !dynamic {
          found, data := cursor.GetNextData(tx, true, p);
          if found { dynamic, text := true, data; }
          index := index + 1;
        } else {
          found, data := cursor.GetNextData(tx, false, p);
          if found {
            text := data;
            index := index + 1;
          } else {
            dynamic := false;
            index := index - 1;
          }
        }
      } else {
        if !dynamic {
          found, data := cursor.GetNextData(tx, false, p);
          if found { dynamic, text := true, data; }
          index := index - 1;
        } else {
          found, data := cursor.GetNextData(tx, true, p);
          if found {
            text := data;
            index := index - 1;
          } else {
            dynamic := false;
            index := index + 1;
          }
        }
      }
    }

    /** What is on display is the screen of the linear review. */
    lemma OnDisplay()
      requires InStep()
      ensures index < |flow| && Current() == Screens(tx, scriptsAllowed, showScriptHash)[position]
    {
      hide AllItems, Front, Rep, Render, Flow, Screens;
      ScreensShape();
      if Open() {
        FlowShape();
      } else {
        ClosedShape();
      }
    }

    /** Where the delimiters and the end of the flow are, seen from the position. */
    lemma Surroundings()
      requires InStep()
      ensures index < |flow| - 1
      ensures flow[index + 1] == FlowEnd <==> position + 1 == |Screens(tx, scriptsAllowed, showScriptHash)|
      ensures index == 0 <==> position == 0
      ensures flow[index + 1] == UpperDelimiter <==> Open() && position + 1 == FrontLength()
      ensures flow[index + 1] == LowerDelimiter <==> Open() && IsItem(StopAt(position))
      ensures index > 0 ==> (flow[index - 1] == UpperDelimiter <==> Open() && IsItem(StopAt(position)))
      ensures index > 0 ==>
                (flow[index - 1] == LowerDelimiter <==> Open() && position == FrontLength() + |AllItems(tx)|)
    {
      hide AllItems, Rep, Render, Front, Flow, Screens, CursorAt;
      ScreensShape();
      FlowLength();
      FlowMarks(index + 1);
      if index > 0 { FlowMarks(index - 1); }
    }

    lemma SomeItems()
      requires Displayable(tx)
      ensures |AllItems(tx)| > 0
    {
      BlockLength(tx, tx.signersSize - 1);
    }

    /** Entering the step leads to the place `next` of the linear review: at once, or by what a
        delimiter does. */
    ghost predicate Leads(step: nat, next: nat)
      reads `dynamic, `text, `position, cursor
    {
      && Displayable(tx) && flow == Flow(tx, scriptsAllowed, showScriptHash) && step < |flow|
      && next < |Screens(tx, scriptsAllowed, showScriptHash)|
      && if flow[step] in {UpperDelimiter, LowerDelimiter} then
           var upper, p, q := flow[step] == UpperDelimiter, StopAt(position), StopAt(next);
           && step > 0 && Open() && CursorAt(p) && (p.Begin? ==> upper) && (p.Finish? ==> !upper)
           && q == (if upper == IsItem(p) then Predecessor(tx, p) else Successor(tx, p))
           && IndexAt(next) == step + (if IsItem(q) then (if upper then 1 else -1) else if q.Begin? then -1 else 1)
         else
           step == IndexAt(next) && (Open() ==> CursorAt(StopAt(next)))
    }

    lemma ForwardLeads()
      requires InStep() && position + 1 < |Screens(tx, scriptsAllowed, showScriptHash)|
      ensures Leads(index + 1, position + 1)
    {
      hide AllItems, Rep, Render, Screens, Flow, Front, Successor, Predecessor;
      ScreensShape();
      Surroundings();
      SomeItems();
      FlowMarks(index + 1);
      if Open() && FrontLength() <= position + 1 <= FrontLength() + |AllItems(tx)| { StopsAdjacent(position); }
    }

    lemma BackLeads()
      requires InStep() && position > 0
      ensures index > 0 && Leads(index - 1, position - 1)
    {
      hide AllItems, Rep, Render, Screens, Flow, Front, Successor, Predecessor;
      ScreensShape();
      Surroundings();
      SomeItems();
      FlowMarks(index - 1);
      if Open() && FrontLength() <= position <= FrontLength() + |AllItems(tx)| { StopsAdjacent(position - 1); }
    }

    /** Enters the step the flow is at: a delimiter acts, and the screen that is reached is
        shown. */
    method Enter(ghost next: nat)
      requires Leads(index, next)
      modifies this, cursor
      ensures InStep() && position == next
      ensures shown == old(shown) + {Screens(tx, scriptsAllowed, showScriptHash)[next]}
    {
      hide AllItems, Rep, Render, Screens, Flow, Front, Successor, Predecessor;
      if flow[index] == UpperDelimiter {
        DisplayNextState(true, StopAt(position));
      } else if flow[index] == LowerDelimiter {
        DisplayNextState(false, StopAt(position));
      }
      position := next;
      OnDisplay();
      shown := shown + {Current()};
    }

    /** A press of the right button: one screen forward, if there is one. */
    method Right()
      requires Valid()
      modifies this, cursor
      ensures Valid()
      ensures position == if old(position) + 1 < |Screens(tx, scriptsAllowed, showScriptHash)| then old(position) + 1
                          else old(position)
    {
      hide Screens, Leads;
      Surroundings();
      if flow[index + 1] == FlowEnd { return; }
      ForwardLeads();
      index := index + 1;
      Enter(position + 1);
    }

    /** A press of the left button: one screen back, if there is one. */
    method Left()
      requires Valid()
      modifies this, cursor
      ensures Valid()
      ensures position == if old(position) > 0 then old(position) - 1 else 0
    {
      hide Screens, Leads;
      Surroundings();
      if index == 0 { return; }
      BackLeads();
      index := index - 1;
      Enter(position - 1);
    }

    /** Any sequence of presses. */
    method PressAll(presses: seq<bool>)
      requires Valid()
      modifies this, cursor
      ensures Valid()
    {
      for k := 0 to |presses|
        invariant Valid()
      {
        if presses[k] {
          Right();
        } else {
          Left();
        }
      }
    }

    /** Both buttons at once: only the last steps react. A transaction is approved only when
        it may be, and after every screen before the approval has been on display, each
        signer item with its own text among them. */
    method BothButtons() returns (choice: Choice)
      requires Valid()
      ensures choice == if Current() == StepScreen(ApproveStep) then Approved
                        else if Current() in {StepScreen(RejectStep), StepScreen(AbortStep)} then Rejected
                        else NoChoice
      ensures choice == Approved ==> Allowed(tx, scriptsAllowed) && AllShown(tx, showScriptHash, shown)
      ensures !Allowed(tx, scriptsAllowed) ==> choice != Approved
    {
      OnDisplay();
      var step := flow[index];
      choice := if step == ApproveStep then Approved
                else if step == RejectStep || step == AbortStep then Rejected else NoChoice;
      if choice == Approved {
        SeenAll();
      }
    }

    lemma SeenAll()
      requires Valid() && Current() == StepScreen(ApproveStep)
      ensures Allowed(tx, scriptsAllowed) && AllShown(tx, showScriptHash, shown)
    {
      hide AllItems, Rep, Render, IsItem, Screens, Front, FixedShown, ScriptShown, SignerShown;
      AtApproval();
      ScreensShape();
      forall step | step in Front(tx, showScriptHash) ensures StepScreen(step) in shown {
        var k :| 0 <= k < FrontLength() && Front(tx, showScriptHash)[k] == step;
        assert Screens(tx, scriptsAllowed, showScriptHash)[k] in shown;
      }
      forall p | IsItem(p) && ValidStop(tx, p) ensures ItemScreen(Render(tx, p)) in shown {
        var k := ItemIndex(p);
        assert Screens(tx, scriptsAllowed, showScriptHash)[k] in shown;
      }
      StepsShown(tx, showScriptHash, shown);
      forall s | 0 <= s < tx.signersSize ensures SignerShown(tx.signers[s], s, tx.signersSize, shown) {
        SignerItemsShown(tx, s, shown);
      }
    }

    /** The approval step is where all items are passed. */
    lemma AtApproval()
      requires InStep() && Current() == StepScreen(ApproveStep)
      ensures Open() && position == FrontLength() + |AllItems(tx)|
    {
      hide AllItems, CursorAt, Front, Flow, Screens;
      ScreensShape();
      FlowLength();
      FlowMarks(index);
      if Open() && index < FrontLength() { FlowShape(); }
    }

    lemma ItemIndex(p: Stop) returns (k: nat)
      requires Displayable(tx) && IsItem(p) && ValidStop(tx, p)
      ensures FrontLength() <= k < FrontLength() + |AllItems(tx)| && StopAt(k) == p
    {
      StopAtPosition(tx, p);
      k := FrontLength() + Position(tx, p) - 1;
      PositionOfStop(tx, Position(tx, p));
    }
  }
}
