/** Reading an encoding. Each lemma follows the parser through one part of the input, either
    because the parse of `d` succeeds (nothing is expected, and the part read is returned), or
    because the bytes are those of a given part, which is then what is read. */
module Reading {
  import opened Options
  import opened Bytes
  import opened Transactions
  import opened Scripts
  import opened Parsing
  import opened ParsingSteps
  import opened ParsingLaws
  import opened Wire
  import opened Visiting

  ghost predicate Starts(d: bytes, off: nat, x: bytes) {
    off + |x| <= |d| && d[off..off + |x|] == x
  }

  lemma StartsSplit(d: bytes, off: nat, x: bytes, y: bytes)
    requires Starts(d, off, x + y)
    ensures Starts(d, off, x) && Starts(d, off + |x|, y)
  {
    var n := off + |x| + |y|;
    assert d[off..off + |x|] == d[off..n][..|x|];
    assert d[off + |x|..n] == d[off..n][|x|..];
  }

  lemma StartsItem(d: bytes, off: nat, f: Item, fs: seq<Item>)
    requires Starts(d, off, Flatten([f] + fs))
    ensures Starts(d, off, f.content) && Starts(d, off + |f.content|, Flatten(fs))
  {
    assert ([f] + fs)[1..] == fs;
    StartsSplit(d, off, f.content, Flatten(fs));
  }

  lemma StartsBoth(d: bytes, off: nat, fs: seq<Item>, gs: seq<Item>)
    requires Starts(d, off, Flatten(fs + gs))
    ensures Starts(d, off, Flatten(fs)) && Starts(d, off + |Flatten(fs)|, Flatten(gs))
  {
    FlattenAppend(fs, gs);
    StartsSplit(d, off, Flatten(fs), Flatten(gs));
  }

  /** The bytes of a count, or of a field of fixed length, are what is read as that field. */
  lemma FieldIs(d: bytes, s: State, c: bytes)
    requires Valid(d, s) && Starts(d, s.off, c) && c != []
    requires if IsCount(s.phase) then IsVarint(c) else |c| == FieldLen(d, s.off, s.phase)
    ensures !IsCut(d, s) && At(d, s.off, FieldLen(d, s.off, s.phase)) == c
  {
    assert d[s.off] == d[s.off..s.off + |c|][0];
  }

  /** A field of an input that parses is whole, and accepted. */
  lemma FieldOfOk(d: bytes, s: State)
    requires Valid(d, s) && Run(d, s).status == ParsingOk && !s.phase.Done?
    ensures !IsCut(d, s) && Judge(d, s).Next? && Run(d, After(d, s)).status == ParsingOk
  {
    hide Run;
    Unfold(d, s);
    CutIsNotOk(d, s);
  }

  /** A count, expected or in an input that parses. */
  lemma CountRead(d: bytes, s: State, want: Option<bytes>)
    requires Valid(d, s) && IsCount(s.phase)
    requires want.None? ==> Run(d, s).status == ParsingOk
    requires want.Some? ==> IsVarint(want.value) && Starts(d, s.off, want.value)
    ensures !IsCut(d, s) && IsVarint(Content(d, s)) && At(d, s.off, FieldLen(d, s.off, s.phase)) == Content(d, s)
    ensures want.Some? ==> Content(d, s) == want.value
    ensures want.None? ==> Judge(d, s).Next? && Run(d, After(d, s)).status == ParsingOk
  {
    hide Run, Judge;
    if want.Some? {
      FieldIs(d, s, want.value);
    } else {
      FieldOfOk(d, s);
    }
    CountIs(d, s);
    ContentIs(d, s);
  }

  lemma VisitsOne(d: bytes, s: State, f: Item)
    requires Valid(d, s) && Takes(d, s, f)
    ensures Visits(d, s, [f], After(d, s))
  {
  }

  /** One more field in front of a walk. */
  lemma VisitsCons(d: bytes, s: State, f: Item, fs: seq<Item>, t: State)
    requires Valid(d, s) && Takes(d, s, f) && Visits(d, After(d, s), fs, t)
    ensures Visits(d, s, [f] + fs, t)
  {
    assert ([f] + fs)[1..] == fs;
  }

  ghost predicate Expect(d: bytes, s: State, fs: Option<seq<Item>>)
    requires Valid(d, s)
  {
    match fs
    case None => Run(d, s).status == ParsingOk
    case Some(fs) => Starts(d, s.off, Flatten(fs))
  }

  // ---- contracts and groups ----

  lemma PointToCons(d: bytes, pointers: seq<nat>, j: nat, c: bytes, rest: seq<bytes>, n: nat)
    requires j < |pointers| && pointers[j] + n <= |d| && At(d, pointers[j], n) == c
    requires PointTo(d, pointers, j + 1, rest, n)
    ensures PointTo(d, pointers, j, [c] + rest, n)
  {
    var cs := [c] + rest;
    forall k | j <= k < j + |cs| ensures pointers[k] + n <= |d| && At(d, pointers[k], n) == cs[k - j] {
      if k > j {
        assert cs[k - j] == rest[k - (j + 1)];
      }
    }
  }

  lemma PointToOne(d: bytes, pointers: seq<nat>, j: nat, c: bytes, n: nat)
    requires j < |pointers| && pointers[j] + n <= |d| && At(d, pointers[j], n) == c
    ensures PointTo(d, pointers, j, [c], n)
  {
  }

  lemma ContractKept(x: Tx, i: nat, j: nat, off: nat, z: Tx)
    requires Shape(x) && Shape(z) && i < MAX_TX_SIGNERS && j < |x.signers[i].contracts|
    requires var y := PutSigner(x, i, x.signers[i].(contracts := x.signers[i].contracts[j := off]));
             z == PutSigner(y, i, y.signers[i].(contracts := z.signers[i].contracts))
             && z.signers[i].contracts[..j + 1] == y.signers[i].contracts[..j + 1]
    ensures z == PutSigner(x, i, x.signers[i].(contracts := z.signers[i].contracts))
    ensures z.signers[i].contracts[j] == off && z.signers[i].contracts[..j] == x.signers[i].contracts[..j]
  {
    var ys := x.signers[i].contracts[j := off];
    assert z.signers[i].contracts[j] == z.signers[i].contracts[..j + 1][j] == ys[..j + 1][j];
    assert z.signers[i].contracts[..j] == z.signers[i].contracts[..j + 1][..j] == ys[..j + 1][..j] == x.signers[i].contracts[..j];
  }

  /** What `ContractsRead` establishes. */
  ghost predicate ContractsParsed(d: bytes, s: State, i: nat, j: nat, cs: seq<bytes>, t: State)
    requires Valid(d, s) && s.phase == Contract(i, j)
  {
    && |cs| == s.tx.signers[i].contractsSize - j && AllOfLength(cs, UINT160_LEN)
    && Visits(d, s, ContractItems(cs, i, j), t) && Valid(d, t)
    && t.phase == AfterContracts(i, t.tx)
    && t.tx == PutSigner(s.tx, i, s.tx.signers[i].(contracts := t.tx.signers[i].contracts))
    && t.tx.signers[i].contracts[..j] == s.tx.signers[i].contracts[..j]
    && PointTo(d, t.tx.signers[i].contracts, j, cs, UINT160_LEN)
  }

  lemma {:induction false} ContractsRead(d: bytes, s: State, i: nat, j: nat, want: Option<seq<bytes>>)
    returns (cs: seq<bytes>, t: State)
    requires Valid(d, s) && s.phase == Contract(i, j)
    requires want.None? ==> Run(d, s).status == ParsingOk
    requires want.Some? ==> |want.value| == s.tx.signers[i].contractsSize - j && AllOfLength(want.value, UINT160_LEN)
                            && Starts(d, s.off, Flatten(ContractItems(want.value, i, j)))
    ensures ContractsParsed(d, s, i, j, cs, t)
    ensures want.Some? ==> cs == want.value
    decreases s.tx.signers[i].contractsSize - j
  {
    hide Run, Judge, Accept, AfterContracts, AfterSigner, Visits, Flatten, PointTo;
    if want.Some? {
      StartsItem(d, s.off, Item(Contract(i, j), want.value[0]), ContractItems(want.value[1..], i, j + 1));
      FieldIs(d, s, want.value[0]);
    } else {
      FieldOfOk(d, s);
    }
    ContractVerdict(d, s, i, j);
    var c, m := At(d, s.off, UINT160_LEN), After(d, s);
    if j + 1 == s.tx.signers[i].contractsSize {
      cs, t := [c], m;
      VisitsOne(d, s, Item(Contract(i, j), c));
      assert ContractItems(cs, i, j) == [Item(Contract(i, j), c)];
      PointToOne(d, t.tx.signers[i].contracts, j, c, UINT160_LEN);
    } else {
      var rest;
      rest, t := ContractsRead(d, m, i, j + 1, if want.Some? then Some(want.value[1..]) else None);
      cs := [c] + rest;
      assert cs[1..] == rest;
      ContractKept(s.tx, i, j, s.off, t.tx);
      PointToCons(d, t.tx.signers[i].contracts, j, c, rest, UINT160_LEN);
      VisitsCons(d, s, Item(Contract(i, j), c), ContractItems(rest, i, j + 1), t);
    }
  }

  lemma GroupKept(x: Tx, i: nat, j: nat, off: nat, z: Tx)
    requires Shape(x) && Shape(z) && i < MAX_TX_SIGNERS && j < |x.signers[i].groups|
    requires var y := PutSigner(x, i, x.signers[i].(groups := x.signers[i].groups[j := off]));
             z == PutSigner(y, i, y.signers[i].(groups := z.signers[i].groups))
             && z.signers[i].groups[..j + 1] == y.signers[i].groups[..j + 1]
    ensures z == PutSigner(x, i, x.signers[i].(groups := z.signers[i].groups))
    ensures z.signers[i].groups[j] == off && z.signers[i].groups[..j] == x.signers[i].groups[..j]
  {
    var ys := x.signers[i].groups[j := off];
    assert z.signers[i].groups[j] == z.signers[i].groups[..j + 1][j] == ys[..j + 1][j];
    assert z.signers[i].groups[..j] == z.signers[i].groups[..j + 1][..j] == ys[..j + 1][..j] == x.signers[i].groups[..j];
  }

  /** What `GroupsRead` establishes. */
  ghost predicate GroupsParsed(d: bytes, s: State, i: nat, j: nat, cs: seq<bytes>, t: State)
    requires Valid(d, s) && s.phase == Group(i, j)
  {
    && |cs| == s.tx.signers[i].groupsSize - j && AllOfLength(cs, ECPOINT_LEN)
    && Visits(d, s, GroupItems(cs, i, j), t) && Valid(d, t)
    && t.phase == AfterSigner(i, t.tx)
    && t.tx == PutSigner(s.tx, i, s.tx.signers[i].(groups := t.tx.signers[i].groups))
    && t.tx.signers[i].groups[..j] == s.tx.signers[i].groups[..j]
    && PointTo(d, t.tx.signers[i].groups, j, cs, ECPOINT_LEN)
  }

  lemma {:induction false} GroupsRead(d: bytes, s: State, i: nat, j: nat, want: Option<seq<bytes>>)
    returns (cs: seq<bytes>, t: State)
    requires Valid(d, s) && s.phase == Group(i, j)
    requires want.None? ==> Run(d, s).status == ParsingOk
    requires want.Some? ==> |want.value| == s.tx.signers[i].groupsSize - j && AllOfLength(want.value, ECPOINT_LEN)
                            && Starts(d, s.off, Flatten(GroupItems(want.value, i, j)))
    ensures GroupsParsed(d, s, i, j, cs, t)
    ensures want.Some? ==> cs == want.value
    decreases s.tx.signers[i].groupsSize - j
  {
    hide Run, Judge, Accept, AfterContracts, AfterSigner, Visits, Flatten, PointTo;
    if want.Some? {
      StartsItem(d, s.off, Item(Group(i, j), want.value[0]), GroupItems(want.value[1..], i, j + 1));
      FieldIs(d, s, want.value[0]);
    } else {
      FieldOfOk(d, s);
    }
    GroupVerdict(d, s, i, j);
    var c, m := At(d, s.off, ECPOINT_LEN), After(d, s);
    if j + 1 == s.tx.signers[i].groupsSize {
      cs, t := [c], m;
      VisitsOne(d, s, Item(Group(i, j), c));
      assert GroupItems(cs, i, j) == [Item(Group(i, j), c)];
      PointToOne(d, t.tx.signers[i].groups, j, c, ECPOINT_LEN);
    } else {
      var rest;
      rest, t := GroupsRead(d, m, i, j + 1, if want.Some? then Some(want.value[1..]) else None);
      cs := [c] + rest;
      assert cs[1..] == rest;
      GroupKept(s.tx, i, j, s.off, t.tx);
      PointToCons(d, t.tx.signers[i].groups, j, c, rest, ECPOINT_LEN);
      VisitsCons(d, s, Item(Group(i, j), c), GroupItems(rest, i, j + 1), t);
    }
  }

  /** What `ContractListRead` establishes. */
  ghost predicate ContractListParsed(d: bytes, s: State, i: nat, count: bytes, cs: seq<bytes>, t: State)
    requires Valid(d, s) && s.phase == ContractCount(i)
  {
    && ValidList(true, count, cs, MAX_SIGNER_ALLOWED_CONTRACTS, UINT160_LEN)
    && Visits(d, s, [Item(ContractCount(i), count)] + ContractItems(cs, i, 0), t) && Valid(d, t)
    && t.phase == AfterContracts(i, t.tx)
    && t.tx == PutSigner(s.tx, i, s.tx.signers[i].(contractsSize := |cs|, contracts := t.tx.signers[i].contracts))
    && PointTo(d, t.tx.signers[i].contracts, 0, cs, UINT160_LEN)
  }

  /** The whole list of allowed contracts, its count first. */
  lemma ContractListRead(d: bytes, s: State, i: nat, want: Option<WireSigner>)
    returns (count: bytes, cs: seq<bytes>, t: State)
    requires Valid(d, s) && s.phase == ContractCount(i)
    requires want.None? ==> Run(d, s).status == ParsingOk
    requires want.Some? ==> var w := want.value;
               ValidList(true, w.contractCount, w.contracts, MAX_SIGNER_ALLOWED_CONTRACTS, UINT160_LEN)
               && Starts(d, s.off, Flatten([Item(ContractCount(i), w.contractCount)] + ContractItems(w.contracts, i, 0)))
    ensures ContractListParsed(d, s, i, count, cs, t)
    ensures want.Some? ==> count == want.value.contractCount && cs == want.value.contracts
  {
    hide Run, Judge, Accept, AfterContracts, Visits, Flatten;
    if want.Some? {
      var w := want.value;
      StartsItem(d, s.off, Item(ContractCount(i), w.contractCount), ContractItems(w.contracts, i, 0));
      FieldIs(d, s, w.contractCount);
    } else {
      FieldOfOk(d, s);
    }
    CountIs(d, s);
    ContentIs(d, s);
    count := Content(d, s);
    var n := VarintValue(count);
    ContractCountVerdict(d, s, i, n);
    var m := After(d, s);
    if n == 0 {
      cs, t := [], m;
      VisitsOne(d, s, Item(ContractCount(i), count));
      assert [Item(ContractCount(i), count)] + ContractItems(cs, i, 0) == [Item(ContractCount(i), count)];
    } else {
      cs, t := ContractsRead(d, m, i, 0, if want.Some? then Some(want.value.contracts) else None);
      VisitsCons(d, s, Item(ContractCount(i), count), ContractItems(cs, i, 0), t);
    }
  }

  /** What `GroupListRead` establishes. */
  ghost predicate GroupListParsed(d: bytes, s: State, i: nat, count: bytes, cs: seq<bytes>, t: State)
    requires Valid(d, s) && s.phase == GroupCount(i)
  {
    && ValidList(true, count, cs, MAX_SIGNER_ALLOWED_GROUPS, ECPOINT_LEN)
    && Visits(d, s, [Item(GroupCount(i), count)] + GroupItems(cs, i, 0), t) && Valid(d, t)
    && t.phase == AfterSigner(i, t.tx)
    && t.tx == PutSigner(s.tx, i, s.tx.signers[i].(groupsSize := |cs|, groups := t.tx.signers[i].groups))
    && PointTo(d, t.tx.signers[i].groups, 0, cs, ECPOINT_LEN)
  }

  /** The whole list of allowed groups, its count first. */
  lemma GroupListRead(d: bytes, s: State, i: nat, want: Option<WireSigner>)
    returns (count: bytes, cs: seq<bytes>, t: State)
    requires Valid(d, s) && s.phase == GroupCount(i)
    requires want.None? ==> Run(d, s).status == ParsingOk
    requires want.Some? ==> var w := want.value;
               ValidList(true, w.groupCount, w.groups, MAX_SIGNER_ALLOWED_GROUPS, ECPOINT_LEN)
               && Starts(d, s.off, Flatten([Item(GroupCount(i), w.groupCount)] + GroupItems(w.groups, i, 0)))
    ensures GroupListParsed(d, s, i, count, cs, t)
    ensures want.Some? ==> count == want.value.groupCount && cs == want.value.groups
  {
    hide Run, Judge, Accept, AfterSigner, Visits, Flatten;
    if want.Some? {
      var w := want.value;
      StartsItem(d, s.off, Item(GroupCount(i), w.groupCount), GroupItems(w.groups, i, 0));
      FieldIs(d, s, w.groupCount);
    } else {
      FieldOfOk(d, s);
    }
    CountIs(d, s);
    ContentIs(d, s);
    count := Content(d, s);
    var n := VarintValue(count);
    GroupCountVerdict(d, s, i, n);
    var m := After(d, s);
    if n == 0 {
      cs, t := [], m;
      VisitsOne(d, s, Item(GroupCount(i), count));
      assert [Item(GroupCount(i), count)] + GroupItems(cs, i, 0) == [Item(GroupCount(i), count)];
    } else {
      cs, t := GroupsRead(d, m, i, 0, if want.Some? then Some(want.value.groups) else None);
      VisitsCons(d, s, Item(GroupCount(i), count), GroupItems(cs, i, 0), t);
    }
  }

  // ---- signers ----

  /** The accounts of the first `i` signers lie before `off`. */
  ghost predicate AccountsBelow(tx: Tx, i: nat, off: nat)
    requires i <= |tx.signers|
  {
    forall k :: 0 <= k < i ==> tx.signers[k].account + UINT160_LEN <= off
  }

  /** Accounts that are read are compared as they stand in the whole input. */
  lemma SameDuplicate(d: bytes, end: nat, i: nat, off: nat, tx: Tx)
    requires i < |tx.signers| && off + UINT160_LEN <= end <= |d| && AccountsBelow(tx, i, off)
    ensures Duplicate(i, d[..end], off, tx) == Duplicate(i, d, off, tx)
  {
    hide At;
    forall k | 0 <= k < i
      ensures At(d[..end], tx.signers[k].account, UINT160_LEN) == At(d, tx.signers[k].account, UINT160_LEN)
    {
      AtPrefix(d, end, tx.signers[k].account, UINT160_LEN);
    }
    AtPrefix(d, end, off, UINT160_LEN);
  }

  /** What `SignerHeadRead` establishes. */
  ghost predicate SignerHeadParsed(d: bytes, s: State, i: nat, account: bytes, scope: u8, t: State)
    requires Valid(d, s) && s.phase == Account(i) && AccountsBelow(s.tx, i, s.off)
  {
    && Valid(d, t)
    && (|account| == UINT160_LEN && (HasFlag(scope, GLOBAL) ==> scope == GLOBAL) && !Duplicate(i, d, s.off, s.tx))
    && Visits(d, s, [Item(Account(i), account), Item(Scope(i), [scope])], t)
    && t.tx == PutSigner(s.tx, i, s.tx.signers[i].(account := s.off, scope := scope))
    && t.phase == AfterScope(i, t.tx) && t.off == s.off + UINT160_LEN + 1
    && At(d, s.off, UINT160_LEN) == account
  }

  /** Account and scope. */
  lemma SignerHeadRead(d: bytes, s: State, i: nat, want: Option<WireSigner>)
    returns (account: bytes, scope: u8, t: State)
    requires Valid(d, s) && s.phase == Account(i) && AccountsBelow(s.tx, i, s.off)
    requires want.None? ==> Run(d, s).status == ParsingOk
    requires want.Some? ==> ValidSigner(want.value) && !Duplicate(i, d, s.off, s.tx)
                            && Starts(d, s.off, Flatten(SignerItems(want.value, i)))
    ensures SignerHeadParsed(d, s, i, account, scope, t)
    ensures want.Some? ==> (account == want.value.account && scope == want.value.scope
                            && Starts(d, t.off, Flatten(ContractList(want.value, i) + GroupList(want.value, i))))
    ensures want.None? ==> Run(d, t).status == ParsingOk
  {
    hide Run, Judge, Accept, AfterScope, Visits, Flatten;
    if want.Some? {
      var w := want.value;
      StartsItem(d, s.off, Item(Account(i), w.account),
                 [Item(Scope(i), [w.scope])] + (ContractList(w, i) + GroupList(w, i)));
      StartsItem(d, s.off + UINT160_LEN, Item(Scope(i), [w.scope]), ContractList(w, i) + GroupList(w, i));
      FieldIs(d, s, w.account);
    } else {
      FieldOfOk(d, s);
    }
    AccountVerdict(d, s, i);
    SameDuplicate(d, s.off + UINT160_LEN, i, s.off, s.tx);
    var m := After(d, s);
    if want.Some? {
      FieldIs(d, m, [want.value.scope]);
    } else {
      FieldOfOk(d, m);
    }
    ScopeVerdict(d, m, i);
    ContentIs(d, m);
    account, scope, t := At(d, s.off, UINT160_LEN), d[m.off], After(d, m);
    if want.None? { FieldOfOk(d, m); }
    VisitsOne(d, m, Item(Scope(i), [scope]));
    VisitsCons(d, s, Item(Account(i), account), [Item(Scope(i), [scope])], t);
    assert [Item(Account(i), account)] + [Item(Scope(i), [scope])] == [Item(Account(i), account), Item(Scope(i), [scope])];
  }

  /** What `ContractPartRead` establishes. */
  ghost predicate ContractPartParsed(d: bytes, s: State, i: nat, head: WireSigner, w: WireSigner, t: State)
    requires i < MAX_TX_SIGNERS && Valid(d, s) && s.phase == AfterScope(i, s.tx)
    requires s.tx.signers[i].contractsSize == 0 && s.tx.signers[i].scope == head.scope
    requires head.contractCount == [] && head.contracts == []
  {
    && w == head.(contractCount := w.contractCount, contracts := w.contracts)
    && (ValidList(HasFlag(w.scope, CUSTOM_CONTRACTS), w.contractCount, w.contracts,
                 MAX_SIGNER_ALLOWED_CONTRACTS, UINT160_LEN))
    && Visits(d, s, ContractList(w, i), t) && Valid(d, t) && t.phase == AfterContracts(i, t.tx)
    && (var g := t.tx.signers[i];
       t.tx == PutSigner(s.tx, i, s.tx.signers[i].(contractsSize := |w.contracts|, contracts := g.contracts))
       && PointTo(d, g.contracts, 0, w.contracts, UINT160_LEN))
  }

  /** The contracts, when the scope asks for them. */
  lemma ContractPartRead(d: bytes, s: State, i: nat, head: WireSigner, want: Option<WireSigner>)
    returns (w: WireSigner, t: State)
    requires i < MAX_TX_SIGNERS && Valid(d, s) && s.phase == AfterScope(i, s.tx)
    requires s.tx.signers[i].contractsSize == 0 && s.tx.signers[i].scope == head.scope
    requires head.contractCount == [] && head.contracts == []
    requires want.None? ==> Run(d, s).status == ParsingOk
    requires want.Some? ==> ValidSigner(want.value) && want.value.scope == head.scope
                            && Starts(d, s.off, Flatten(ContractList(want.value, i)))
    ensures ContractPartParsed(d, s, i, head, w, t)
    ensures want.Some? ==> w.contractCount == want.value.contractCount && w.contracts == want.value.contracts
  {
    hide Run, AfterContracts, Visits, Flatten;
    w, t := head, s;
    if HasFlag(head.scope, CUSTOM_CONTRACTS) {
      var count, cs;
      count, cs, t := ContractListRead(d, s, i, want);
      w := w.(contractCount := count, contracts := cs);
    } else {
      VisitsNone(d, s);
    }
  }

  /** What `GroupPartRead` establishes. */
  ghost predicate GroupPartParsed(d: bytes, s: State, i: nat, head: WireSigner, w: WireSigner, t: State)
    requires i < MAX_TX_SIGNERS && Valid(d, s) && s.phase == AfterContracts(i, s.tx)
    requires s.tx.signers[i].groupsSize == 0 && s.tx.signers[i].scope == head.scope
    requires head.groupCount == [] && head.groups == []
  {
    && w == head.(groupCount := w.groupCount, groups := w.groups)
    && ValidList(HasFlag(w.scope, CUSTOM_GROUPS), w.groupCount, w.groups, MAX_SIGNER_ALLOWED_GROUPS, ECPOINT_LEN)
    && Visits(d, s, GroupList(w, i), t) && Valid(d, t) && t.phase == AfterSigner(i, t.tx)
    && (var g := t.tx.signers[i];
       t.tx == PutSigner(s.tx, i, s.tx.signers[i].(groupsSize := |w.groups|, groups := g.groups))
       && PointTo(d, g.groups, 0, w.groups, ECPOINT_LEN))
  }

  /** The groups, when the scope asks for them. */
  lemma GroupPartRead(d: bytes, s: State, i: nat, head: WireSigner, want: Option<WireSigner>)
    returns (w: WireSigner, t: State)
    requires i < MAX_TX_SIGNERS && Valid(d, s) && s.phase == AfterContracts(i, s.tx)
    requires s.tx.signers[i].groupsSize == 0 && s.tx.signers[i].scope == head.scope
    requires head.groupCount == [] && head.groups == []
    requires want.None? ==> Run(d, s).status == ParsingOk
    requires want.Some? ==> ValidSigner(want.value) && want.value.scope == head.scope
                            && Starts(d, s.off, Flatten(GroupList(want.value, i)))
    ensures GroupPartParsed(d, s, i, head, w, t)
    ensures want.Some? ==> w.groupCount == want.value.groupCount && w.groups == want.value.groups
  {
    hide Run, AfterSigner, Visits, Flatten;
    w, t := head, s;
    if HasFlag(head.scope, CUSTOM_GROUPS) {
      var count, gs;
      count, gs, t := GroupListRead(d, s, i, want);
      w := w.(groupCount := count, groups := gs);
    } else {
      VisitsNone(d, s);
    }
  }

  /** What `SignerListsRead` establishes. */
  ghost predicate SignerListsParsed(d: bytes, s: State, i: nat, head: WireSigner, w: WireSigner, t: State)
    requires i < MAX_TX_SIGNERS && Valid(d, s) && s.phase == AfterScope(i, s.tx)
    requires var g := s.tx.signers[i]; g.contractsSize == 0 && g.groupsSize == 0 && g.scope == head.scope
    requires head == WireSigner(head.account, head.scope, [], [], [], [])
  {
    && w.account == head.account && w.scope == head.scope
    && (|head.account| == UINT160_LEN && (HasFlag(head.scope, GLOBAL) ==> head.scope == GLOBAL) ==> ValidSigner(w))
    && Visits(d, s, ContractList(w, i) + GroupList(w, i), t) && Valid(d, t)
    && t.phase == AfterSigner(i, t.tx)
    && (var g := t.tx.signers[i];
       && t.tx == PutSigner(s.tx, i, s.tx.signers[i].(contractsSize := |w.contracts|, contracts := g.contracts,
                                                      groupsSize := |w.groups|, groups := g.groups))
       && PointTo(d, g.contracts, 0, w.contracts, UINT160_LEN) && PointTo(d, g.groups, 0, w.groups, ECPOINT_LEN))
  }

  /** The two optional lists. */
  lemma SignerListsRead(d: bytes, s: State, i: nat, head: WireSigner, want: Option<WireSigner>)
    returns (w: WireSigner, t: State)
    requires i < MAX_TX_SIGNERS && Valid(d, s) && s.phase == AfterScope(i, s.tx)
    requires var g := s.tx.signers[i]; g.contractsSize == 0 && g.groupsSize == 0 && g.scope == head.scope
    requires head == WireSigner(head.account, head.scope, [], [], [], [])
    requires want.None? ==> Run(d, s).status == ParsingOk
    requires want.Some? ==> ValidSigner(want.value) && want.value.account == head.account && want.value.scope == head.scope
                            && Starts(d, s.off, Flatten(ContractList(want.value, i) + GroupList(want.value, i)))
    ensures SignerListsParsed(d, s, i, head, w, t)
    ensures want.Some? ==> w == want.value
  {
    hide Run, AfterSigner, AfterScope, AfterContracts, Visits, Flatten, PointTo;
    if want.Some? {
      StartsBoth(d, s.off, ContractList(want.value, i), GroupList(want.value, i));
    }
    var u, m := ContractPartRead(d, s, i, head, want);
    VisitsRun(d, s, ContractList(u, i), m);
    w, t := GroupPartRead(d, m, i, u, want);
    assert ContractList(w, i) == ContractList(u, i);
    VisitsAppend(d, s, ContractList(w, i), m, GroupList(w, i), t);
  }

  lemma VisitsNone(d: bytes, s: State)
    requires Valid(d, s)
    ensures Visits(d, s, [], s)
  {
  }

  /** What `SignerRead` establishes. */
  ghost predicate SignerParsed(d: bytes, s: State, i: nat, w: WireSigner, t: State)
    requires Valid(d, s) && s.phase == Account(i) && s.tx.signers[i] == ZeroSigner() && AccountsBelow(s.tx, i, s.off)
  {
    && ValidSigner(w) && !Duplicate(i, d, s.off, s.tx)
    && Visits(d, s, SignerItems(w, i), t) && Valid(d, t) && t.phase == AfterSigner(i, t.tx)
    && t.tx == PutSigner(s.tx, i, t.tx.signers[i]) && HoldsSigner(d, t.tx.signers[i], w)
    && t.tx.signers[i].account == s.off && s.off + UINT160_LEN < t.off
  }

  lemma HeadGives(d: bytes, s: State, i: nat, account: bytes, scope: u8, m: State)
    requires Valid(d, s) && s.phase == Account(i) && AccountsBelow(s.tx, i, s.off) && s.tx.signers[i] == ZeroSigner()
    requires SignerHeadParsed(d, s, i, account, scope, m)
    ensures i < MAX_TX_SIGNERS && Valid(d, m) && m.phase == AfterScope(i, m.tx)
    ensures var g := m.tx.signers[i]; g.contractsSize == 0 && g.groupsSize == 0 && g.scope == scope
  {
    hide Visits, Duplicate, AfterScope, HasFlag, At;
  }

  lemma SignerWalk(d: bytes, s: State, i: nat, account: bytes, scope: u8, m: State, w: WireSigner, t: State)
    requires Valid(d, s) && s.phase == Account(i) && AccountsBelow(s.tx, i, s.off)
    requires SignerHeadParsed(d, s, i, account, scope, m)
    requires i < MAX_TX_SIGNERS && Valid(d, m) && m.phase == AfterScope(i, m.tx)
    requires var g := m.tx.signers[i]; g.contractsSize == 0 && g.groupsSize == 0 && g.scope == scope
    requires SignerListsParsed(d, m, i, WireSigner(account, scope, [], [], [], []), w, t)
    ensures Visits(d, s, SignerItems(w, i), t) && m.off <= t.off
  {
    hide Visits, ContractList, GroupList, Flatten, Run, Duplicate, AfterScope, AfterSigner, HasFlag, PointTo,
         ValidSigner;
    var front := [Item(Account(i), account), Item(Scope(i), [scope])];
    VisitsAppend(d, s, front, m, ContractList(w, i) + GroupList(w, i), t);
    assert front + (ContractList(w, i) + GroupList(w, i)) == SignerItems(w, i);
    VisitsRun(d, m, ContractList(w, i) + GroupList(w, i), t);
  }

  lemma SignerHeld(d: bytes, s: State, i: nat, account: bytes, scope: u8, m: State, w: WireSigner, t: State)
    requires Valid(d, s) && s.phase == Account(i) && s.tx.signers[i] == ZeroSigner() && AccountsBelow(s.tx, i, s.off)
    requires SignerHeadParsed(d, s, i, account, scope, m) && m.off <= t.off
    requires i < MAX_TX_SIGNERS && Valid(d, m) && m.phase == AfterScope(i, m.tx)
    requires var g := m.tx.signers[i]; g.contractsSize == 0 && g.groupsSize == 0 && g.scope == scope
    requires SignerListsParsed(d, m, i, WireSigner(account, scope, [], [], [], []), w, t)
    requires Visits(d, s, SignerItems(w, i), t)
    ensures SignerParsed(d, s, i, w, t)
  {
    hide Visits, Duplicate, AfterScope, AfterSigner, HasFlag, PointTo, SignerItems, ContractList, GroupList,
         ValidSigner;
    assert t.tx.signers == s.tx.signers[i := t.tx.signers[i]];
  }

  lemma SignerRead(d: bytes, s: State, i: nat, want: Option<WireSigner>) returns (w: WireSigner, t: State)
    requires Valid(d, s) && s.phase == Account(i) && s.tx.signers[i] == ZeroSigner() && AccountsBelow(s.tx, i, s.off)
    requires want.None? ==> Run(d, s).status == ParsingOk
    requires want.Some? ==> ValidSigner(want.value) && !Duplicate(i, d, s.off, s.tx)
                            && Starts(d, s.off, Flatten(SignerItems(want.value, i)))
    ensures SignerParsed(d, s, i, w, t)
    ensures want.Some? ==> w == want.value
  {
    hide *;
    var account, scope, m := SignerHeadRead(d, s, i, want);
    HeadGives(d, s, i, account, scope, m);
    var head := WireSigner(account, scope, [], [], [], []);
    w, t := SignerListsRead(d, m, i, head, want);
    SignerWalk(d, s, i, account, scope, m, w, t);
    SignerHeld(d, s, i, account, scope, m, w, t);
  }

  ghost predicate DistinctPointers(d: bytes, tx: Tx, n: nat)
    requires n <= |tx.signers|
  {
    forall a, b :: 0 <= a < b < n ==>
      At(d, tx.signers[a].account, UINT160_LEN) != At(d, tx.signers[b].account, UINT160_LEN)
  }

  /** The signers to come differ from each other and from those already read. */
  ghost predicate DistinctFrom(d: bytes, tx: Tx, i: nat, ws: seq<WireSigner>)
    requires i <= |tx.signers|
  {
    DistinctAccounts(ws)
    && forall a, k :: 0 <= a < i && 0 <= k < |ws| ==> At(d, tx.signers[a].account, UINT160_LEN) != ws[k].account
  }

  ghost predicate ZeroFrom(tx: Tx, i: nat)
    requires Shape(tx)
  {
    forall k :: i <= k < MAX_TX_SIGNERS ==> tx.signers[k] == ZeroSigner()
  }

  ghost predicate HoldsSigners(d: bytes, tx: Tx, i: nat, ws: seq<WireSigner>)
    requires Shape(tx)
  {
    i + |ws| <= MAX_TX_SIGNERS
    && forall k {:trigger ws[k]} :: 0 <= k < |ws| ==> HoldsSigner(d, tx.signers[i + k], ws[k])
  }

  /** What `SignersRead` establishes. */
  ghost predicate SignersParsed(d: bytes, s: State, i: nat, ws: seq<WireSigner>, t: State)
    requires Valid(d, s) && s.phase == Account(i) && ZeroFrom(s.tx, i)
    requires AccountsBelow(s.tx, i, s.off) && DistinctPointers(d, s.tx, i)
  {
    && (|ws| == s.tx.signersSize - i && (forall w :: w in ws ==> ValidSigner(w)))
    && Visits(d, s, SignersItems(ws, i), t) && Valid(d, t) && t.phase == AttributeCount
    && t.tx == s.tx.(signers := t.tx.signers) && t.tx.signers[..i] == s.tx.signers[..i]
    && HoldsSigners(d, t.tx, i, ws) && DistinctPointers(d, t.tx, s.tx.signersSize)
  }

  lemma {:induction false} SignersRead(d: bytes, s: State, i: nat, want: Option<seq<WireSigner>>)
    returns (ws: seq<WireSigner>, t: State)
    requires Valid(d, s) && s.phase == Account(i) && ZeroFrom(s.tx, i)
    requires AccountsBelow(s.tx, i, s.off) && DistinctPointers(d, s.tx, i)
    requires want.None? ==> Run(d, s).status == ParsingOk
    requires want.Some? ==> |want.value| == s.tx.signersSize - i && (forall w :: w in want.value ==> ValidSigner(w))
                            && DistinctFrom(d, s.tx, i, want.value)
                            && Starts(d, s.off, Flatten(SignersItems(want.value, i)))
    ensures SignersParsed(d, s, i, ws, t)
    ensures want.Some? ==> ws == want.value
    decreases s.tx.signersSize - i
  {
    hide Run, Judge, Accept, Visits, Flatten, SignerItems, HoldsSigner, ValidSigner;
    if want.Some? {
      StartsBoth(d, s.off, SignerItems(want.value[0], i), SignersItems(want.value[1..], i + 1));
      FirstAccount(d, s, i, want.value);
    }
    var w, m := SignerRead(d, s, i, if want.Some? then Some(want.value[0]) else None);
    VisitsRun(d, s, SignerItems(w, i), m);
    assert m.tx.signers[..i] == s.tx.signers[..i];
    NextDistinct(d, s.tx, i, m.tx);
    if i + 1 == s.tx.signersSize {
      ws, t := [w], m;
      assert SignersItems(ws, i) == SignerItems(w, i) + [] == SignerItems(w, i);
    } else {
      var rest;
      rest, t := SignersRead(d, m, i + 1, if want.Some? then Some(want.value[1..]) else None);
      ws := [w] + rest;
      assert ws[1..] == rest;
      VisitsAppend(d, s, SignerItems(w, i), m, SignersItems(rest, i + 1), t);
      SignersKept(d, s.tx, m.tx, t.tx, i, w, rest);
    }
  }

  lemma FirstAccount(d: bytes, s: State, i: nat, ws: seq<WireSigner>)
    requires i < |s.tx.signers| && ws != [] && ValidSigner(ws[0]) && DistinctFrom(d, s.tx, i, ws)
    requires Starts(d, s.off, Flatten(SignerItems(ws[0], i)))
    ensures !Duplicate(i, d, s.off, s.tx)
    ensures At(d, s.off, UINT160_LEN) == ws[0].account
  {
    var w := ws[0];
    StartsItem(d, s.off, Item(Account(i), w.account), [Item(Scope(i), [w.scope])] + (ContractList(w, i) + GroupList(w, i)));
  }

  lemma NextDistinct(d: bytes, x: Tx, i: nat, y: Tx)
    requires Shape(x) && Shape(y) && i < MAX_TX_SIGNERS && y.signers[..i] == x.signers[..i]
    requires DistinctPointers(d, x, i) && !Duplicate(i, d, y.signers[i].account, x)
    ensures DistinctPointers(d, y, i + 1)
    ensures forall k :: 0 <= k < i ==> y.signers[k] == x.signers[k]
  {
    forall k | 0 <= k < i ensures y.signers[k] == x.signers[k] {
      assert y.signers[..i][k] == x.signers[..i][k];
    }
  }

  lemma SignersKept(d: bytes, x: Tx, y: Tx, z: Tx, i: nat, w: WireSigner, rest: seq<WireSigner>)
    requires Shape(x) && Shape(y) && Shape(z) && i < MAX_TX_SIGNERS
    requires y.signers[..i] == x.signers[..i] && z.signers[..i + 1] == y.signers[..i + 1]
    requires HoldsSigner(d, y.signers[i], w) && HoldsSigners(d, z, i + 1, rest)
    ensures z.signers[..i] == x.signers[..i] && HoldsSigners(d, z, i, [w] + rest)
  {
    assert z.signers[..i] == z.signers[..i + 1][..i] == y.signers[..i];
    assert z.signers[i] == z.signers[..i + 1][i] == y.signers[..i + 1][i];
    var ws := [w] + rest;
    forall k | 0 <= k < |ws| ensures HoldsSigner(d, z.signers[i + k], ws[k]) {
      if k > 0 { assert ws[k] == rest[k - 1] && i + 1 + (k - 1) == i + k; }
    }
  }

  // ---- the header ----

  predicate IsHeader(p: Phase) {
    p in {Version, Nonce, SystemFee, NetworkFee, ValidUntil}
  }

  /** The largest value the field may hold, plus one. */
  function Limit(p: Phase): nat
    requires IsHeader(p)
  {
    if p == Version then 1 else if p == SystemFee || p == NetworkFee then 0x8000_0000_0000_0000 else 0x1_0000_0000
  }

  function HeaderContent(p: Phase, v: nat): (c: bytes)
    requires IsHeader(p) && v < Limit(p)
    ensures |c| == FieldLen([], 0, p)
  {
    Widths();
    if p == Version then [v] else ToLE(v, FieldLen([], 0, p))
  }

  lemma HeaderNumber(p: Phase, d: bytes, off: nat)
    requires IsHeader(p) && Complete(p, d, off)
    ensures var c := d[off..];
            && (Number(p, d, off) == if p == Version then c[0]
                                     else if p == SystemFee || p == NetworkFee then Signed(FromLE(c), 8) else FromLE(c))
            && (0 <= Number(p, d, off) < Limit(p) ==> c == HeaderContent(p, Number(p, d, off)))
    ensures forall v :: 0 <= v < Limit(p) && d[off..] == HeaderContent(p, v) ==> Number(p, d, off) == v
  {
    Widths();
    ToLEOfFromLE(d[off..]);
  }

  lemma HeaderStep(d: bytes, s: State)
    requires Valid(d, s) && IsHeader(s.phase) && !IsCut(d, s)
    ensures var n := Number(s.phase, d[..s.off + FieldLen(d, s.off, s.phase)], s.off);
            && InRange(s.phase, n)
            && (Judge(d, s).Next? <==> 0 <= n < Limit(s.phase))
            && (Judge(d, s).Next? ==>
                  var tx := Write(s.phase, n, s.tx);
                  After(d, s) == State(Following(s.phase, 0, tx), s.off + FieldLen(d, s.off, s.phase), tx))
  {
    Widths();
  }

  lemma HeaderRead(d: bytes, s: State, want: Option<nat>) returns (v: nat, t: State)
    requires Valid(d, s) && IsHeader(s.phase)
    requires want.None? ==> Run(d, s).status == ParsingOk
    requires want.Some? ==> want.value < Limit(s.phase) && Starts(d, s.off, HeaderContent(s.phase, want.value))
    ensures want.Some? ==> v == want.value
    ensures v < Limit(s.phase) && Takes(d, s, Item(s.phase, HeaderContent(s.phase, v))) && t == After(d, s)
    ensures var tx := Write(s.phase, v, s.tx);
            t == State(Following(s.phase, 0, tx), s.off + FieldLen(d, s.off, s.phase), tx)
    ensures want.None? ==> Run(d, t).status == ParsingOk
  {
    hide Run, Judge, Accept, Number, HeaderContent, Limit;
    if want.Some? {
      FieldIs(d, s, HeaderContent(s.phase, want.value));
    } else {
      FieldOfOk(d, s);
    }
    var end := s.off + FieldLen(d, s.off, s.phase);
    assert d[..end][s.off..] == d[s.off..end];
    HeaderNumber(s.phase, d[..end], s.off);
    HeaderStep(d, s);
    v := Number(s.phase, d[..end], s.off);
    t := After(d, s);
  }

  function PairOf(p: Phase, v: nat, q: Phase, w: nat): seq<Item>
    requires IsHeader(p) && v < Limit(p) && IsHeader(q) && w < Limit(q)
  {
    [Item(p, HeaderContent(p, v))] + [Item(q, HeaderContent(q, w))]
  }

  function TailOf(validUntil: nat, count: bytes): seq<Item>
    requires validUntil < Limit(ValidUntil)
  {
    [Item(ValidUntil, HeaderContent(ValidUntil, validUntil))] + [Item(SignerCount, count)]
  }

  /** The fields before the signers. */
  function HeaderOf(nonce: nat, systemFee: nat, networkFee: nat, validUntil: nat, count: bytes): seq<Item>
    requires nonce < Limit(Nonce) && systemFee < Limit(SystemFee) && networkFee < Limit(NetworkFee)
    requires validUntil < Limit(ValidUntil)
  {
    PairOf(Version, 0, Nonce, nonce) + (PairOf(SystemFee, systemFee, NetworkFee, networkFee) + TailOf(validUntil, count))
  }

  lemma HeaderOfWire(w: Wire)
    requires ValidWire(w)
    ensures w.nonce < Limit(Nonce) && w.systemFee < Limit(SystemFee)
            && w.networkFee < Limit(NetworkFee) && w.validUntil < Limit(ValidUntil)
    ensures HeaderItems(w) == HeaderOf(w.nonce, w.systemFee, w.networkFee, w.validUntil, w.signerCount)
  {
    hide ValidSigner, DistinctAccounts, Counts, ToLE;
  }

  /** What `SignerCountRead` establishes. */
  ghost predicate SignerCountParsed(d: bytes, s: State, count: bytes, t: State)
    requires Valid(d, s) && s.phase == SignerCount
  {
    && IsVarint(count) && MIN_TX_SIGNERS <= VarintValue(count) <= MAX_TX_SIGNERS
    && Visits(d, s, [Item(SignerCount, count)], t)
    && t == State(Account(0), t.off, s.tx.(signersSize := VarintValue(count))) && Valid(d, t)
  }

  lemma SignerCountRead(d: bytes, s: State, want: Option<Wire>) returns (count: bytes, t: State)
    requires Valid(d, s) && s.phase == SignerCount
    requires want.None? ==> Run(d, s).status == ParsingOk
    requires want.Some? ==> ValidWire(want.value) && Starts(d, s.off, want.value.signerCount)
    ensures SignerCountParsed(d, s, count, t)
    ensures want.Some? ==> count == want.value.signerCount
    ensures want.None? ==> Run(d, t).status == ParsingOk
  {
    hide Run, Judge, Accept, Visits;
    if want.Some? {
      FieldIs(d, s, want.value.signerCount);
    } else {
      FieldOfOk(d, s);
    }
    CountIs(d, s);
    ContentIs(d, s);
    count := Content(d, s);
    SignerCountVerdict(d, s, VarintValue(count));
    t := After(d, s);
    VisitsOne(d, s, Item(SignerCount, count));
  }

  /** What `HeaderPairRead` establishes. */
  ghost predicate HeaderPairParsed(d: bytes, s: State, v: nat, w: nat, t: State)
    requires Valid(d, s) && s.phase in {Version, SystemFee}
  {
    && (var q := if s.phase == Version then Nonce else NetworkFee;
       v < Limit(s.phase) && w < Limit(q) && Visits(d, s, PairOf(s.phase, v, q, w), t))
    && (Valid(d, t)
       && t == if s.phase == Version then State(SystemFee, s.off + 5, s.tx.(version := v, nonce := w))
               else State(ValidUntil, s.off + 16, s.tx.(systemFee := v, networkFee := w)))
  }

  /** Two header fields in a row: version and nonce, or the two fees. */
  lemma HeaderPairRead(d: bytes, s: State, want: Option<(nat, nat)>) returns (v: nat, w: nat, t: State)
    requires Valid(d, s) && s.phase in {Version, SystemFee}
    requires want.None? ==> Run(d, s).status == ParsingOk
    requires var q := if s.phase == Version then Nonce else NetworkFee;
             want.Some? ==> want.value.0 < Limit(s.phase) && want.value.1 < Limit(q)
                            && Starts(d, s.off, HeaderContent(s.phase, want.value.0))
                            && Starts(d, s.off + (if s.phase == Version then 1 else 8), HeaderContent(q, want.value.1))
    ensures HeaderPairParsed(d, s, v, w, t)
    ensures want.Some? ==> (v, w) == want.value
    ensures want.None? ==> Run(d, t).status == ParsingOk
  {
    hide Run, Judge, Accept, Visits, HeaderContent, Limit;
    var m;
    v, m := HeaderRead(d, s, if want.Some? then Some(want.value.0) else None);
    w, t := HeaderRead(d, m, if want.Some? then Some(want.value.1) else None);
    var q := m.phase;
    VisitsOne(d, m, Item(q, HeaderContent(q, w)));
    VisitsCons(d, s, Item(s.phase, HeaderContent(s.phase, v)), [Item(q, HeaderContent(q, w))], t);
  }

  /** What `HeaderTailRead` establishes. */
  ghost predicate HeaderTailParsed(d: bytes, s: State, validUntil: nat, count: bytes, t: State)
    requires Valid(d, s) && s.phase == ValidUntil
  {
    && validUntil < Limit(ValidUntil) && IsVarint(count) && MIN_TX_SIGNERS <= VarintValue(count) <= MAX_TX_SIGNERS
    && Visits(d, s, TailOf(validUntil, count), t)
    && (Valid(d, t)
       && t == State(Account(0), t.off, s.tx.(validUntil := validUntil, signersSize := VarintValue(count))))
  }

  lemma HeaderTailRead(d: bytes, s: State, want: Option<Wire>) returns (validUntil: nat, count: bytes, t: State)
    requires Valid(d, s) && s.phase == ValidUntil
    requires want.None? ==> Run(d, s).status == ParsingOk
    requires want.Some? ==> ValidWire(want.value) && Starts(d, s.off, HeaderContent(ValidUntil, want.value.validUntil))
                            && Starts(d, s.off + 4, want.value.signerCount)
    ensures HeaderTailParsed(d, s, validUntil, count, t)
    ensures want.Some? ==> validUntil == want.value.validUntil && count == want.value.signerCount
    ensures want.None? ==> Run(d, t).status == ParsingOk
  {
    hide Run, Judge, Accept, Visits, HeaderContent;
    var m;
    validUntil, m := HeaderRead(d, s, if want.Some? then Some(want.value.validUntil) else None);
    count, t := SignerCountRead(d, m, want);
    VisitsCons(d, s, Item(ValidUntil, HeaderContent(ValidUntil, validUntil)), [Item(SignerCount, count)], t);
  }

  /** What `HeaderAllRead` establishes. */
  ghost predicate HeaderAllParsed(d: bytes, nonce: nat, systemFee: nat, networkFee: nat, validUntil: nat,
                                  count: bytes, t: State)
  {
    && (nonce < Limit(Nonce) && systemFee < Limit(SystemFee) && networkFee < Limit(NetworkFee)
       && validUntil < Limit(ValidUntil))
    && IsVarint(count) && MIN_TX_SIGNERS <= VarintValue(count) <= MAX_TX_SIGNERS
    && Visits(d, State(Version, 0, ZeroTx()), HeaderOf(nonce, systemFee, networkFee, validUntil, count), t)
    && (t == State(Account(0), t.off,
                  ZeroTx().(version := 0, nonce := nonce, systemFee := systemFee, networkFee := networkFee,
                            validUntil := validUntil, signersSize := VarintValue(count))) && Valid(d, t))
  }

  lemma HeaderAllRead(d: bytes, want: Option<Wire>)
    returns (nonce: nat, systemFee: nat, networkFee: nat, validUntil: nat, count: bytes, t: State)
    requires want.None? ==> Run(d, State(Version, 0, ZeroTx())).status == ParsingOk
    requires want.Some? ==> ValidWire(want.value) && Starts(d, 0, Flatten(HeaderItems(want.value)))
    ensures HeaderAllParsed(d, nonce, systemFee, networkFee, validUntil, count, t)
    ensures want.Some? ==> var w := want.value;
              (nonce, systemFee, networkFee, validUntil, count)
              == (w.nonce, w.systemFee, w.networkFee, w.validUntil, w.signerCount)
    ensures want.None? ==> Run(d, t).status == ParsingOk
  {
    hide Run, Judge, Visits, Flatten, HeaderContent, Takes, ZeroTx, FieldLen, PairOf, TailOf, ValidWire, Limit, Starts,
         HeaderItems, IsVarint, VarintValue;
    var first, second := None, None;
    assert 0 < Limit(Version) by { Positive(); }
    if want.Some? {
      HeaderOfWire(want.value);
      HeaderStarts(d, want.value);
      first, second := Some((0, want.value.nonce)), Some((want.value.systemFee, want.value.networkFee));
    }
    var s := State(Version, 0, ZeroTx());
    var version, m, n;
    version, nonce, m := HeaderPairRead(d, s, first);
    assert version == 0 by { Positive(); }
    systemFee, networkFee, n := HeaderPairRead(d, m, second);
    validUntil, count, t := HeaderTailRead(d, n, want);
    VisitsAppend(d, m, PairOf(SystemFee, systemFee, NetworkFee, networkFee), n, TailOf(validUntil, count), t);
    VisitsAppend(d, s, PairOf(Version, 0, Nonce, nonce), m,
                 PairOf(SystemFee, systemFee, NetworkFee, networkFee) + TailOf(validUntil, count), t);
  }

  lemma Positive()
    ensures Limit(Version) == 1
  {
  }

  /** Where the fields of the header are. */
  lemma HeaderStarts(d: bytes, w: Wire)
    requires ValidWire(w) && Starts(d, 0, Flatten(HeaderItems(w)))
    ensures w.nonce < Limit(Nonce) && w.systemFee < Limit(SystemFee)
            && w.networkFee < Limit(NetworkFee) && w.validUntil < Limit(ValidUntil)
    ensures Starts(d, 0, HeaderContent(Version, 0)) && Starts(d, 1, HeaderContent(Nonce, w.nonce))
    ensures Starts(d, 5, HeaderContent(SystemFee, w.systemFee))
            && Starts(d, 13, HeaderContent(NetworkFee, w.networkFee))
    ensures Starts(d, 21, HeaderContent(ValidUntil, w.validUntil)) && Starts(d, 25, w.signerCount)
  {
    hide Flatten, Starts, HeaderContent;
    HeaderOfWire(w);
    var f6 := [Item(SignerCount, w.signerCount)];
    var f5 := [Item(ValidUntil, HeaderContent(ValidUntil, w.validUntil))] + f6;
    var f4 := [Item(NetworkFee, HeaderContent(NetworkFee, w.networkFee))] + f5;
    var f3 := [Item(SystemFee, HeaderContent(SystemFee, w.systemFee))] + f4;
    var f2 := [Item(Nonce, HeaderContent(Nonce, w.nonce))] + f3;
    assert HeaderItems(w) == [Item(Version, HeaderContent(Version, 0))] + f2;
    StartsItem(d, 0, Item(Version, HeaderContent(Version, 0)), f2);
    StartsItem(d, 1, Item(Nonce, HeaderContent(Nonce, w.nonce)), f3);
    StartsItem(d, 5, Item(SystemFee, HeaderContent(SystemFee, w.systemFee)), f4);
    StartsItem(d, 13, Item(NetworkFee, HeaderContent(NetworkFee, w.networkFee)), f5);
    StartsItem(d, 21, Item(ValidUntil, HeaderContent(ValidUntil, w.validUntil)), f6);
    assert f6 == [Item(SignerCount, w.signerCount)] + [];
    StartsItem(d, 25, Item(SignerCount, w.signerCount), []);
  }

  // ---- attributes and script ----

  function AttributesOf(count: bytes, attributes: bytes): seq<Item> {
    [Item(AttributeCount, count)] + (if attributes == [] then [] else [Item(Attribute(0), attributes)])
  }

  lemma AttributeCountRead(d: bytes, s: State, want: Option<Wire>)
    requires Valid(d, s) && s.phase == AttributeCount
    requires want.None? ==> Run(d, s).status == ParsingOk
    requires want.Some? ==> ValidWire(want.value)
                            && Starts(d, s.off, Flatten(AttributesOf(want.value.attributeCount, want.value.attributes)))
    ensures !IsCut(d, s) && Judge(d, s).Next? && IsVarint(Content(d, s))
            && Takes(d, s, Item(AttributeCount, Content(d, s)))
    ensures var n := VarintValue(Content(d, s));
            n <= 2 && After(d, s) == State(if n > 0 then Attribute(0) else ScriptLength, s.off + |Content(d, s)|,
                                           s.tx.(attributesSize := n))
    ensures want.None? ==> Run(d, After(d, s)).status == ParsingOk
    ensures want.Some? ==> Content(d, s) == want.value.attributeCount
                           && VarintValue(Content(d, s)) == |want.value.attributes|
                              && ValidAttributes(want.value.attributes)
                           && (want.value.attributes != [] ==>
                                 Starts(d, After(d, s).off, Flatten([Item(Attribute(0), want.value.attributes)])))
  {
    hide Run, Judge, Flatten, ValidSigner, DistinctAccounts;
    if want.Some? {
      var w := want.value;
      StartsItem(d, s.off, Item(AttributeCount, w.attributeCount),
                 if w.attributes == [] then [] else [Item(Attribute(0), w.attributes)]);
    }
    CountRead(d, s, if want.Some? then Some(want.value.attributeCount) else None);
    AttributeCountVerdict(d, s, VarintValue(Content(d, s)));
  }

  lemma AttributeParts(count: bytes, attributes: bytes)
    ensures attributes == [] ==> AttributesOf(count, attributes) == [Item(AttributeCount, count)]
    ensures attributes != [] ==>
              AttributesOf(count, attributes) == [Item(AttributeCount, count)] + [Item(Attribute(0), attributes)]
  {
  }

  /** What `AttributesRead` establishes. */
  ghost predicate AttributesParsed(d: bytes, s: State, count: bytes, attributes: bytes, t: State)
    requires Valid(d, s) && s.phase == AttributeCount && s.tx.attributes == [0, 0]
  {
    && Counts(count, |attributes|) && ValidAttributes(attributes)
    && Visits(d, s, AttributesOf(count, attributes), t) && Valid(d, t) && t.phase == ScriptLength
    && t.tx == s.tx.(attributesSize := |attributes|, attributes := t.tx.attributes)
    && t.tx.attributes[..|attributes|] == attributes
  }

  lemma AttributesRead(d: bytes, s: State, want: Option<Wire>) returns (count: bytes, attributes: bytes, t: State)
    requires Valid(d, s) && s.phase == AttributeCount && s.tx.attributes == [0, 0]
    requires want.None? ==> Run(d, s).status == ParsingOk
    requires want.Some? ==> ValidWire(want.value)
                            && Starts(d, s.off, Flatten(AttributesOf(want.value.attributeCount, want.value.attributes)))
    ensures AttributesParsed(d, s, count, attributes, t)
    ensures want.Some? ==> count == want.value.attributeCount && attributes == want.value.attributes
    ensures want.None? ==> Run(d, t).status == ParsingOk
  {
    hide Run, Judge, Visits, Flatten, Content, ValidWire, Starts, Takes, After, FieldLen, IsCut, AttributesOf, Shape;
    AttributeCountRead(d, s, want);
    count := Content(d, s);
    var n, m := VarintValue(count), After(d, s);
    if n == 0 {
      attributes, t := [], m;
      VisitsOne(d, s, Item(AttributeCount, count));
    } else {
      attributes, t := AttributeRead(d, m, want);
      VisitsCons(d, s, Item(AttributeCount, count), [Item(Attribute(0), attributes)], t);
    }
    AttributeParts(count, attributes);
  }

  /** What `AttributeRead` establishes. */
  ghost predicate AttributeParsed(d: bytes, s: State, attributes: bytes, t: State)
    requires Valid(d, s) && s.phase == Attribute(0) && s.tx.attributes == [0, 0]
  {
    && attributes == [HIGH_PRIORITY] && s.tx.attributesSize == 1
    && Visits(d, s, [Item(Attribute(0), attributes)], t) && Valid(d, t)
    && t == State(ScriptLength, s.off + 1, s.tx.(attributes := [HIGH_PRIORITY, 0]))
  }

  lemma AttributeRead(d: bytes, s: State, want: Option<Wire>) returns (attributes: bytes, t: State)
    requires Valid(d, s) && s.phase == Attribute(0) && s.tx.attributes == [0, 0]
    requires want.None? ==> Run(d, s).status == ParsingOk
    requires want.Some? ==> ValidWire(want.value) && want.value.attributes != [] && s.tx.attributesSize == 1
                            && Starts(d, s.off, Flatten([Item(Attribute(0), want.value.attributes)]))
    ensures AttributeParsed(d, s, attributes, t)
    ensures want.None? ==> Run(d, t).status == ParsingOk
  {
    hide Run, Judge, Accept, Visits, Flatten;
    if want.Some? {
      var f := Item(Attribute(0), want.value.attributes);
      assert [f] + [] == [f];
      StartsItem(d, s.off, f, []);
      FieldIs(d, s, want.value.attributes);
    } else {
      FieldOfOk(d, s);
    }
    AttributeVerdict(d, s, 0);
    ContentIs(d, s);
    t, attributes := After(d, s), [d[s.off]];
    VisitsOne(d, s, Item(Attribute(0), attributes));
    assert HIGH_PRIORITY in t.tx.attributes[..2] by { assert t.tx.attributes[..2][0] == HIGH_PRIORITY; }
    if want.None? {
      FieldOfOk(d, s);
      if s.tx.attributesSize == 2 {
        FieldOfOk(d, t);
        AttributeVerdict(d, t, 1);
      }
    }
  }

  function ScriptOf(count: bytes, script: bytes): seq<Item>
    requires script != []
  {
    [Item(ScriptLength, count)] + [Item(Script(|script|), script)]
  }

  lemma ScriptLengthRead(d: bytes, s: State, want: Option<Wire>)
    requires Valid(d, s) && s.phase == ScriptLength
    requires want.None? ==> Run(d, s).status == ParsingOk
    requires want.Some? ==> ValidWire(want.value)
                            && Starts(d, s.off, Flatten(ScriptOf(want.value.scriptLength, want.value.script)))
    ensures !IsCut(d, s) && Judge(d, s).Next? && IsVarint(Content(d, s))
            && Takes(d, s, Item(ScriptLength, Content(d, s)))
    ensures var count := Content(d, s);
            var n, m := VarintValue(count), s.off + |count|;
            0 < n <= 0xFFFF && After(d, s) == State(Script(n), m, s.tx.(script := m))
    ensures want.None? ==> Run(d, After(d, s)).status == ParsingOk
    ensures want.Some? ==> Content(d, s) == want.value.scriptLength && VarintValue(Content(d, s)) == |want.value.script|
                           && Starts(d, After(d, s).off, want.value.script)
  {
    hide Run, Judge, Flatten, ValidSigner, DistinctAccounts;
    if want.Some? {
      var w := want.value;
      var f := Item(Script(|w.script|), w.script);
      StartsItem(d, s.off, Item(ScriptLength, w.scriptLength), [f]);
      assert [f] + [] == [f];
      StartsItem(d, s.off + |w.scriptLength|, f, []);
    }
    CountRead(d, s, if want.Some? then Some(want.value.scriptLength) else None);
    ScriptLengthVerdict(d, s, VarintValue(Content(d, s)));
  }

  lemma ScriptBodyRead(d: bytes, s: State, n: pos, want: Option<bytes>)
    requires Valid(d, s) && s.phase == Script(n)
    requires want.None? ==> Run(d, s).status == ParsingOk
    requires want.Some? ==> |want.value| == n && Starts(d, s.off, want.value)
    ensures !IsCut(d, s) && Judge(d, s).Next?
    ensures var script := At(d, s.off, n);
            && |script| == n && Takes(d, s, Item(Script(n), script)) && (want.Some? ==> script == want.value)
            && After(d, s) == State(Done, s.off + n, Recognise(script, s.tx.(scriptSize := n)))
  {
    hide Run, Judge, Recognise;
    if want.Some? {
      FieldIs(d, s, want.value);
    } else {
      FieldOfOk(d, s);
    }
    ScriptVerdict(d, s, n);
    ContentIs(d, s);
  }

  lemma ScriptWalk(d: bytes, s: State, count: bytes, script: bytes)
    requires Valid(d, s) && Takes(d, s, Item(ScriptLength, count)) && script != []
    requires Takes(d, After(d, s), Item(Script(|script|), script))
    ensures Visits(d, s, ScriptOf(count, script), After(d, After(d, s)))
  {
    hide Judge, Visits;
    VisitsOne(d, After(d, s), Item(Script(|script|), script));
    VisitsCons(d, s, Item(ScriptLength, count), [Item(Script(|script|), script)], After(d, After(d, s)));
  }

  lemma ScriptParts(d: bytes, s: State, count: bytes, script: bytes, t: State)
    requires Valid(d, s) && s.phase == ScriptLength && IsVarint(count) && VarintValue(count) == |script|
             && 0 < |script| <= 0xFFFF
    requires Visits(d, s, ScriptOf(count, script), t) && Valid(d, t) && t.phase == Done && s.off <= t.off - |script|
    requires At(d, t.off - |script|, |script|) == script
    requires t.tx == Recognise(script, s.tx.(script := t.off - |script|, scriptSize := |script|))
    ensures ScriptParsed(d, s, count, script, t)
  {
    hide Visits, ScriptOf, Recognise, At, Valid, VarintValue, IsVarint;
  }

  lemma ScriptStored(d: bytes, s: State, m: State, count: bytes, script: bytes, t: State)
    requires Valid(d, s) && s.phase == ScriptLength && IsVarint(count) && VarintValue(count) == |script|
             && 0 < |script| <= 0xFFFF
    requires m == State(Script(|script|), s.off + |count|, s.tx.(script := s.off + |count|))
    requires At(d, m.off, |script|) == script && Visits(d, s, ScriptOf(count, script), t) && Valid(d, t)
    requires t == State(Done, m.off + |script|, Recognise(script, m.tx.(scriptSize := |script|)))
    ensures ScriptParsed(d, s, count, script, t)
  {
    hide *;
    assert t.off - |script| == m.off && s.off <= m.off;
    assert m.tx.(scriptSize := |script|) == s.tx.(script := m.off, scriptSize := |script|);
    ScriptParts(d, s, count, script, t);
  }

  /** What `ScriptRead` establishes. */
  ghost predicate ScriptParsed(d: bytes, s: State, count: bytes, script: bytes, t: State)
    requires Valid(d, s) && s.phase == ScriptLength
  {
    && Counts(count, |script|) && 0 < |script| <= 0xFFFF
    && Visits(d, s, ScriptOf(count, script), t) && Valid(d, t) && t.phase == Done
    && (var a := t.off - |script|;
       && s.off <= a && At(d, a, |script|) == script
       && t.tx == Recognise(script, s.tx.(script := a, scriptSize := |script|)))
  }

  lemma ScriptRead(d: bytes, s: State, want: Option<Wire>) returns (count: bytes, script: bytes, t: State)
    requires Valid(d, s) && s.phase == ScriptLength
    requires want.None? ==> Run(d, s).status == ParsingOk
    requires want.Some? ==> ValidWire(want.value)
                            && Starts(d, s.off, Flatten(ScriptOf(want.value.scriptLength, want.value.script)))
    ensures ScriptParsed(d, s, count, script, t)
    ensures want.Some? ==> count == want.value.scriptLength && script == want.value.script
  {
    hide *;
    ScriptLengthRead(d, s, want);
    count := Content(d, s);
    var n, m := VarintValue(count), After(d, s);
    ScriptBodyRead(d, m, n, if want.Some? then Some(want.value.script) else None);
    script, t := At(d, m.off, n), After(d, m);
    ScriptWalk(d, s, count, script);
    ScriptStored(d, s, m, count, script, t);
  }
}
