/** The machine's walk over the fields of an encoding. */
module Visiting {
  import opened Bytes
  import opened Parsing
  import opened Wire

  function After(d: bytes, s: State): (t: State)
    requires Valid(d, s) && !IsCut(d, s) && Judge(d, s).Next?
    ensures Valid(d, t)
  {
    State(Judge(d, s).phase, s.off + FieldLen(d, s.off, s.phase), Judge(d, s).tx)
  }

  /** The field at `s` is `f`, and it is accepted. */
  ghost predicate Takes(d: bytes, s: State, f: Item)
    requires Valid(d, s)
  {
    && s.phase == f.phase && !s.phase.Done? && !IsCut(d, s)
    && At(d, s.off, FieldLen(d, s.off, s.phase)) == f.content && Judge(d, s).Next?
  }

  /** From `s` the machine reads exactly the fields `fs` and is then at `t`. */
  ghost predicate Visits(d: bytes, s: State, fs: seq<Item>, t: State)
    requires Valid(d, s)
    decreases |fs|
  {
    if fs == [] then s == t else Takes(d, s, fs[0]) && Visits(d, After(d, s), fs[1..], t)
  }

  lemma {:induction false} VisitsRun(d: bytes, s: State, fs: seq<Item>, t: State)
    requires Valid(d, s) && Visits(d, s, fs, t)
    ensures Valid(d, t) && Run(d, s) == Run(d, t)
    ensures t.off == s.off + |Flatten(fs)| && d[s.off..t.off] == Flatten(fs)
    decreases |fs|
  {
    hide Run, Judge;
    if fs != [] {
      Unfold(d, s);
      VisitsRun(d, After(d, s), fs[1..], t);
    }
  }

  lemma {:induction false} VisitsAppend(d: bytes, s: State, fs: seq<Item>, m: State, gs: seq<Item>, t: State)
    requires Valid(d, s) && Visits(d, s, fs, m) && Valid(d, m) && Visits(d, m, gs, t)
    ensures Visits(d, s, fs + gs, t)
    decreases |fs|
  {
    hide Judge;
    if fs == [] {
      assert fs + gs == gs;
    } else {
      assert (fs + gs)[1..] == fs[1..] + gs;
      VisitsAppend(d, After(d, s), fs[1..], m, gs, t);
    }
  }

  /** Cut inside one of the fields, the input is rejected with that field's status. */
  lemma {:induction false} VisitsCut(d: bytes, s: State, fs: seq<Item>, t: State, k: nat)
    requires Valid(d, s) && Visits(d, s, fs, t) && s.off <= k < t.off <= |d| && t.off == s.off + |Flatten(fs)|
    ensures Valid(d[..k], s) && Run(d[..k], s).cut
    ensures Run(d[..k], s).status == CutStatus(ItemAt(fs, k - s.off).phase)
    decreases |fs|
  {
    hide Run, Judge;
    var n := FieldLen(d, s.off, s.phase);
    Unfold(d[..k], s);
    if k < s.off + n {
      ShorterIsCut(d, s, k);
    } else {
      LongerIsNot(d, s, k);
      VisitsCut(d, After(d, s), fs[1..], t, k);
    }
  }

  lemma ShorterIsCut(d: bytes, s: State, k: nat)
    requires Valid(d, s) && !IsCut(d, s) && s.off <= k < s.off + FieldLen(d, s.off, s.phase)
    ensures Valid(d[..k], s) && IsCut(d[..k], s)
  {
  }

  lemma LongerIsNot(d: bytes, s: State, k: nat)
    requires Valid(d, s) && !IsCut(d, s) && s.off + FieldLen(d, s.off, s.phase) <= k <= |d|
    ensures Valid(d[..k], s) && !IsCut(d[..k], s) && Judge(d[..k], s) == Judge(d, s)
    ensures FieldLen(d[..k], s.off, s.phase) == FieldLen(d, s.off, s.phase)
  {
    hide Accept;
    var end := s.off + FieldLen(d, s.off, s.phase);
    assert d[..k][..end] == d[..end];
  }
}
