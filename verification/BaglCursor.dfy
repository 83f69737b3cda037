/** The cursor of the button front end: four indices that walk the flat list. */
module BaglCursor {
  import opened Transactions
  import opened ReviewItems
  import opened ItemTexts

  const START: int := 0
  const INDEX: int := 1
  const ACCOUNT: int := 2
  const SCOPE: int := 3
  const CONTRACTS: int := 4
  const GROUPS: int := 5
  const END: int := 6

  datatype Indices = Indices(s: int, p: int, c: int, g: int)

  /** The indices at a stop, in canonical position: contracts and groups that are still to
      come stand at -1, those that are passed at their count. */
  function Rep(tx: Tx, p: Stop): Indices
    requires p.s < |tx.signers|
  {
    var nc, ng := tx.signers[p.s].contractsSize, tx.signers[p.s].groupsSize;
    match p
    case Begin(s) => Indices(s, START, -1, -1)
    case SignerStop(s) => Indices(s, INDEX, -1, -1)
    case AccountStop(s) => Indices(s, ACCOUNT, -1, -1)
    case ScopeStop(s) => Indices(s, SCOPE, -1, -1)
    case ContractStop(s, j) => Indices(s, CONTRACTS, j, -1)
    case GroupStop(s, j) => Indices(s, GROUPS, nc, j)
    case Finish(s) => Indices(s, END, nc, ng)
  }

  class Cursor {
    var sIndex: int
    var pIndex: int
    var cIndex: int
    var gIndex: int

    ghost predicate Stands(tx: Tx, p: Stop)
      requires p.s < |tx.signers|
      reads this
    {
      Indices(sIndex, pIndex, cIndex, gIndex) == Rep(tx, p)
    }

    constructor ()
      ensures forall tx: Tx :: |tx.signers| > 0 ==> Stands(tx, Begin(0))
    {
      sIndex, pIndex, cIndex, gIndex := 0, START, -1, -1;
    }

    /** One step forward. At the end of a signer that is not the last it restarts itself on
        the next one. */
    method NextProp(tx: Tx, ghost p: Stop)
      requires Displayable(tx) && p.s < tx.signersSize && Stands(tx, p)
      requires p.ContractStop? ==> p.j < tx.signers[p.s].contractsSize
      requires p.GroupStop? ==> p.j < tx.signers[p.s].groupsSize
      modifies this
      ensures Stands(tx, Successor(tx, p))
      decreases tx.signersSize - p.s
    {
      var signer := tx.signers[sIndex];
      if pIndex < CONTRACTS { pIndex := pIndex + 1; }
      if pIndex == CONTRACTS {
        if cIndex + 1 < signer.contractsSize {
          cIndex := cIndex + 1;
          return;
        }
        cIndex := cIndex + 1;
        pIndex := pIndex + 1;
      }
      if pIndex == GROUPS {
        if gIndex + 1 < signer.groupsSize {
          gIndex := gIndex + 1;
          return;
        }
        gIndex := gIndex + 1;
        pIndex := pIndex + 1;
      }
      if pIndex == END {
        if sIndex + 1 == tx.signersSize { return; }
        sIndex := sIndex + 1;
        cIndex := -1;
        gIndex := -1;
        pIndex := START;
        NextProp(tx, Begin(p.s + 1));
      }
    }

    /** One step back. Before the first property of a signer that is not the first it
        restarts itself at the end of the previous one. */
    method PrevProp(tx: Tx, ghost p: Stop)
      requires Displayable(tx) && p.s < tx.signersSize && !p.Begin? && Stands(tx, p)
      requires p.ContractStop? ==> p.j < tx.signers[p.s].contractsSize
      requires p.GroupStop? ==> p.j < tx.signers[p.s].groupsSize
      modifies this
      ensures Stands(tx, Predecessor(tx, p))
      decreases p.s
    {
      if sIndex == 0 && pIndex == INDEX {
        pIndex := START;
        return;
      }
      if pIndex == END { pIndex := pIndex - 1; }
      if pIndex == GROUPS {
        if gIndex > 0 {
          gIndex := gIndex - 1;
          return;
        }
        gIndex := gIndex - 1;
        pIndex := pIndex - 1;
      }
      if pIndex == CONTRACTS {
        if cIndex > 0 {
          cIndex := cIndex - 1;
          return;
        }
        cIndex := cIndex - 1;
      }
      pIndex := pIndex - 1;
      if pIndex == START {
        if sIndex > 0 {
          sIndex := sIndex - 1;
          pIndex := END;
          gIndex := tx.signers[sIndex].groupsSize;
          cIndex := tx.signers[sIndex].contractsSize;
          PrevProp(tx, Finish(p.s - 1));
        }
      }
    }

    /** Moves and prepares the text of the stop that is reached. */
    method GetNextData(tx: Tx, forward: bool, ghost p: Stop) returns (found: bool, text: Text)
      requires Displayable(tx) && ValidStop(tx, p) && Stands(tx, p)
      requires !forward ==> !p.Begin?
      requires forward ==> !p.Finish?
      modifies this
      ensures var q := if forward then Successor(tx, p) else Predecessor(tx, p);
              ValidStop(tx, q) && Stands(tx, q) && found == IsItem(q) && text == Render(tx, q)
              && Shape(tx) && TellsItem(tx, q, text)
    {
      hide TellsItem, Render, Rep, Successor, Predecessor, Position;
      MovesAreSteps(tx, p);
      if forward {
        NextProp(tx, p);
        found, text := Format(tx, Successor(tx, p));
        RenderTellsItem(tx, Successor(tx, p));
      } else {
        PrevProp(tx, p);
        found, text := Format(tx, Predecessor(tx, p));
        RenderTellsItem(tx, Predecessor(tx, p));
      }
    }

    /** The text of the property the indices point at. */
    method Format(tx: Tx, ghost p: Stop) returns (found: bool, text: Text)
      requires Displayable(tx) && ValidStop(tx, p) && Stands(tx, p)
      ensures found == IsItem(p) && text == Render(tx, p)
    {
      text := NoText;
      if sIndex == tx.signersSize && pIndex == END { return false, text; }
      var s := tx.signers[sIndex];
      found := INDEX <= pIndex <= GROUPS;
      if pIndex == INDEX {
        text := SignerText(sIndex + 1, tx.signersSize);
      } else if pIndex == ACCOUNT {
        text := AccountText(s.account);
      } else if pIndex == SCOPE {
        text := ScopeText(s.scope);
      } else if pIndex == CONTRACTS {
        text := ContractText(cIndex + 1, s.contractsSize, s.contracts[cIndex]);
      } else if pIndex == GROUPS {
        text := GroupText(gIndex + 1, s.groupsSize, s.groups[gIndex]);
      }
    }
  }

  /** The indices stay within the machine types that hold them, and within the arrays. */
  lemma IndicesInRange(tx: Tx, p: Stop)
    requires Displayable(tx) && ValidStop(tx, p)
    ensures var r := Rep(tx, p);
            && 0 <= r.s < tx.signersSize <= 127 && START <= r.p <= END
            && -1 <= r.c <= MAX_SIGNER_ALLOWED_CONTRACTS <= 127 && -1 <= r.g <= MAX_SIGNER_ALLOWED_GROUPS <= 127
  {
  }

  /** Different stops have different indices: the cursor always knows where it is. */
  lemma RepInjective(tx: Tx, p: Stop, q: Stop)
    requires Displayable(tx) && ValidStop(tx, p) && ValidStop(tx, q) && Rep(tx, p) == Rep(tx, q)
    ensures p == q
  {
  }
}
