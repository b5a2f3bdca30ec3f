/**
 * The two shapes of loop the rewind data runs over a registry of tracked objects, stated as
 * functions of a per-object step:
 *  - a forward pass that visits every entry once and may change the entry and its live object;
 *  - the backward retiring pass, which drops stale entries (moving the last entry into the gap)
 *    and steps the others, collecting the ids the step flags.
 * The lemmas say that, with every object tracked once, each pass is the step applied to each
 * object on its own.
 */
module RegistryPasses {
  import opened Sequences
  import opened ChaosObjects

  /** A per-object step: the new entry, the new live object, and a flag the pass collects. */
  type Step<!H, !O> = (DirtyInfo<H>, O) -> (DirtyInfo<H>, O, bool)

  /** The step keeps the entry on its object. */
  ghost predicate KeepsObject<H(!new), O(!new)>(step: Step<H, O>) {
    forall i, o :: step(i, o).0.obj == i.obj
  }

  lemma PrefixIds<H>(reg: seq<DirtyInfo<H>>, n: nat)
    requires n <= |reg|
    ensures IdsOf(reg[..n]) <= IdsOf(reg)
    ensures n < |reg| ==> reg[n].obj in IdsOf(reg)
  {
    forall id | id in IdsOf(reg[..n]) ensures id in IdsOf(reg) {
      var i :| 0 <= i < n && reg[..n][i].obj == id;
      assert reg[i].obj == id;
    }
  }

  lemma TailIds<H>(reg: seq<DirtyInfo<H>>)
    requires reg != []
    ensures IdsOf(reg[1..]) <= IdsOf(reg) && reg[0].obj in IdsOf(reg)
    ensures IdsOf(reg) == IdsOf(reg[1..]) + {reg[0].obj}
    ensures UniqueIds(reg) ==> UniqueIds(reg[1..]) && reg[0].obj !in IdsOf(reg[1..])
  {
    forall id | id in IdsOf(reg[1..]) ensures id in IdsOf(reg) {
      var i :| 0 <= i < |reg[1..]| && reg[1..][i].obj == id;
      assert reg[i + 1].obj == id;
    }
    forall id | id in IdsOf(reg) ensures id in IdsOf(reg[1..]) + {reg[0].obj} {
      var i :| 0 <= i < |reg| && reg[i].obj == id;
      if i > 0 {
        assert reg[1..][i - 1].obj == id;
      }
    }
    if UniqueIds(reg) {
      forall id | id in IdsOf(reg[1..]) ensures id != reg[0].obj {
        var i :| 0 <= i < |reg[1..]| && reg[1..][i].obj == id;
        assert reg[i + 1].obj == id;
      }
    }
  }

  lemma SuffixIds<H>(reg: seq<DirtyInfo<H>>, n: nat)
    requires n <= |reg|
    ensures IdsOf(reg[n..]) <= IdsOf(reg)
  {
    forall id | id in IdsOf(reg[n..]) ensures id in IdsOf(reg) {
      var i :| 0 <= i < |reg[n..]| && reg[n..][i].obj == id;
      assert reg[n + i].obj == id;
    }
  }

  lemma LastNotInPrefix<H>(reg: seq<DirtyInfo<H>>)
    requires UniqueIds(reg) && reg != []
    ensures UniqueIds(reg[..|reg| - 1])
    ensures reg[|reg| - 1].obj !in IdsOf(reg[..|reg| - 1])
  {
    var n := |reg| - 1;
    forall id | id in IdsOf(reg[..n]) ensures id != reg[n].obj {
      var i :| 0 <= i < n && reg[..n][i].obj == id;
      assert reg[i].obj == id;
    }
  }

  // ---------------------------------------------------------------- forward pass

  /** The state a forward pass leaves, defined as the loop runs: one more entry at a time. */
  function PassAll<H, O>(step: Step<H, O>, reg: seq<DirtyInfo<H>>, objs: map<Id, O>): (r: (seq<DirtyInfo<H>>, map<Id, O>, set<Id>))
    requires IdsOf(reg) <= objs.Keys
    ensures |r.0| == |reg| && r.1.Keys == objs.Keys
    decreases |reg|
  {
    if reg == [] then ([], objs, {})
    else
      var n := |reg| - 1;
      PrefixIds(reg, n);
      var prev := PassAll(step, reg[..n], objs);
      var x := reg[n];
      var s := step(x, prev.1[x.obj]);
      (prev.0 + [s.0], prev.1[x.obj := s.1], if s.2 then prev.2 + {x.obj} else prev.2)
  }

  lemma PassUnfold<H, O>(step: Step<H, O>, reg: seq<DirtyInfo<H>>, objs: map<Id, O>)
    requires IdsOf(reg) <= objs.Keys && reg != []
    ensures IdsOf(reg[..|reg| - 1]) <= objs.Keys && reg[|reg| - 1].obj in objs
    ensures var prev := PassAll(step, reg[..|reg| - 1], objs);
            var x := reg[|reg| - 1];
            var s := step(x, prev.1[x.obj]);
            PassAll(step, reg, objs) == (prev.0 + [s.0], prev.1[x.obj := s.1], if s.2 then prev.2 + {x.obj} else prev.2)
  {
    PrefixIds(reg, |reg| - 1);
  }

  /**
   * The forward loop after visiting the first i entries of reg0: those entries and the live objects
   * are what the pass over reg0[..i] leaves, the rest of the registry is untouched.
   */
  ghost predicate PassedUpTo<H, O>(step: Step<H, O>, reg0: seq<DirtyInfo<H>>, objs0: map<Id, O>, i: nat,
                                   reg: seq<DirtyInfo<H>>, objs: map<Id, O>, flagged: set<Id>)
  {
    i <= |reg0| == |reg| && IdsOf(reg0) <= objs0.Keys && IdsOf(reg0[..i]) <= objs0.Keys
    && reg[..i] == PassAll(step, reg0[..i], objs0).0 && reg[i..] == reg0[i..]
    && objs == PassAll(step, reg0[..i], objs0).1 && flagged == PassAll(step, reg0[..i], objs0).2
  }

  lemma PassStart<H, O>(step: Step<H, O>, reg0: seq<DirtyInfo<H>>, objs0: map<Id, O>)
    requires IdsOf(reg0) <= objs0.Keys
    ensures PassedUpTo(step, reg0, objs0, 0, reg0, objs0, {})
  {
    PrefixIds(reg0, 0);
  }

  /** Stepping entry i of the forward loop advances it by one entry. */
  lemma PassStep<H, O>(step: Step<H, O>, reg0: seq<DirtyInfo<H>>, objs0: map<Id, O>, i: nat,
                       reg: seq<DirtyInfo<H>>, objs: map<Id, O>, flagged: set<Id>)
    requires PassedUpTo(step, reg0, objs0, i, reg, objs, flagged) && i < |reg|
    ensures reg[i].obj in objs
    ensures var x := reg[i];
            var s := step(x, objs[x.obj]);
            PassedUpTo(step, reg0, objs0, i + 1, reg[i := s.0], objs[x.obj := s.1],
                       if s.2 then flagged + {x.obj} else flagged)
  {
    PrefixIds(reg0, i + 1);
    PassUnfold(step, reg0[..i + 1], objs0);
    assert reg0[..i + 1][..i] == reg0[..i];
    assert reg[i] == reg[i..][0] == reg0[i];
    var x := reg[i];
    var s := step(x, objs[x.obj]);
    var reg' := reg[i := s.0];
    assert reg'[..i + 1] == reg[..i] + [s.0];
    assert reg'[i + 1..] == reg[i..][1..];
  }

  /** When the forward loop has visited every entry it has computed the whole pass. */
  lemma PassDone<H, O>(step: Step<H, O>, reg0: seq<DirtyInfo<H>>, objs0: map<Id, O>,
                       reg: seq<DirtyInfo<H>>, objs: map<Id, O>, flagged: set<Id>)
    requires PassedUpTo(step, reg0, objs0, |reg0|, reg, objs, flagged)
    ensures (reg, objs, flagged) == PassAll(step, reg0, objs0)
  {
    assert reg0[..|reg0|] == reg0;
    assert reg[..|reg0|] == reg;
  }

  /** The forward loop: every entry, front to back, is stepped in place together with its live object. */
  method VisitAll<H, O>(step: Step<H, O>, reg0: seq<DirtyInfo<H>>, objs0: map<Id, O>)
    returns (reg: seq<DirtyInfo<H>>, objs: map<Id, O>, flagged: set<Id>)
    requires IdsOf(reg0) <= objs0.Keys
    ensures (reg, objs, flagged) == PassAll(step, reg0, objs0)
  {
    reg, objs, flagged := reg0, objs0, {};
    PassStart(step, reg0, objs0);
    var i := 0;
    while i < |reg|
      invariant PassedUpTo(step, reg0, objs0, i, reg, objs, flagged)
    {
      PassStep(step, reg0, objs0, i, reg, objs, flagged);
      var info := reg[i];
      var s := step(info, objs[info.obj]);
      reg := reg[i := s.0];
      objs := objs[info.obj := s.1];
      if s.2 {
        flagged := flagged + {info.obj};
      }
      i := i + 1;
    }
    PassDone(step, reg0, objs0, reg, objs, flagged);
  }

  /** A pass whose step keeps each entry on its object tracks the same objects, in the same places. */
  lemma {:induction false} PassKeepsIds<H(!new), O(!new)>(step: Step<H, O>, reg: seq<DirtyInfo<H>>, objs: map<Id, O>)
    requires IdsOf(reg) <= objs.Keys && KeepsObject(step)
    ensures forall j :: 0 <= j < |reg| ==> PassAll(step, reg, objs).0[j].obj == reg[j].obj
    ensures IdsOf(PassAll(step, reg, objs).0) == IdsOf(reg)
    ensures UniqueIds(PassAll(step, reg, objs).0) <==> UniqueIds(reg)
    decreases |reg|
  {
    if reg != [] {
      var n := |reg| - 1;
      PassUnfold(step, reg, objs);
      PassKeepsIds(step, reg[..n], objs);
    }
    SameIds(PassAll(step, reg, objs).0, reg);
  }

  /**
   * With every object tracked once, entry j after the pass is the step of entry j on its object's
   * original live value, that object gets the step's result, and untracked objects are untouched.
   */
  lemma {:induction false} PassPerObject<H, O>(step: Step<H, O>, reg: seq<DirtyInfo<H>>, objs: map<Id, O>)
    requires UniqueIds(reg) && IdsOf(reg) <= objs.Keys
    ensures forall j :: 0 <= j < |reg| ==>
              PassAll(step, reg, objs).0[j] == step(reg[j], objs[reg[j].obj]).0
              && PassAll(step, reg, objs).1[reg[j].obj] == step(reg[j], objs[reg[j].obj]).1
    ensures forall id :: id in objs && id !in IdsOf(reg) ==> PassAll(step, reg, objs).1[id] == objs[id]
    decreases |reg|
  {
    if reg != [] {
      var n := |reg| - 1;
      PassUnfold(step, reg, objs);
      LastNotInPrefix(reg);
      PrefixIds(reg, n);
      var pre := reg[..n];
      PassPerObject(step, pre, objs);
      var x := reg[n];
      var r := PassAll(step, reg, objs);
      forall j | 0 <= j < |reg|
        ensures r.0[j] == step(reg[j], objs[reg[j].obj]).0
        ensures r.1[reg[j].obj] == step(reg[j], objs[reg[j].obj]).1
      {
        if j < n {
          assert pre[j] == reg[j];
          assert reg[j].obj != x.obj;
        }
      }
    }
  }

  /** With every object tracked once, the pass flags exactly the objects whose own step flags them. */
  lemma {:induction false} PassFlags<H, O>(step: Step<H, O>, reg: seq<DirtyInfo<H>>, objs: map<Id, O>)
    requires UniqueIds(reg) && IdsOf(reg) <= objs.Keys
    ensures forall id :: id in PassAll(step, reg, objs).2 <==>
              exists j :: 0 <= j < |reg| && reg[j].obj == id && step(reg[j], objs[reg[j].obj]).2
    decreases |reg|
  {
    if reg != [] {
      var n := |reg| - 1;
      PassUnfold(step, reg, objs);
      LastNotInPrefix(reg);
      PrefixIds(reg, n);
      var pre := reg[..n];
      PassFlags(step, pre, objs);
      PassPerObject(step, pre, objs);
      var prev := PassAll(step, pre, objs);
      var x := reg[n];
      assert prev.1[x.obj] == objs[x.obj];
      var r := PassAll(step, reg, objs);
      forall id ensures id in r.2 <==> exists j :: 0 <= j < |reg| && reg[j].obj == id && step(reg[j], objs[reg[j].obj]).2 {
        if id in r.2 {
          if id in prev.2 {
            var j :| 0 <= j < n && pre[j].obj == id && step(pre[j], objs[pre[j].obj]).2;
            assert reg[j] == pre[j];
          } else {
            assert reg[n].obj == id && step(reg[n], objs[reg[n].obj]).2;
          }
        }
        if exists j :: 0 <= j < |reg| && reg[j].obj == id && step(reg[j], objs[reg[j].obj]).2 {
          var j :| 0 <= j < |reg| && reg[j].obj == id && step(reg[j], objs[reg[j].obj]).2;
          if j < n {
            assert pre[j] == reg[j];
          }
        }
      }
    }
  }

  // ---------------------------------------------------------------- retiring pass

  /** An object stays tracked while it changed at or after the earliest kept frame. */
  predicate Retained<H>(info: DirtyInfo<H>, earliest: int) { info.lastDirtyFrame >= earliest }

  /**
   * The state the backward retiring loop leaves, defined from the back of the registry: the
   * surviving entries (as a multiset: removals reorder the registry), the new live objects and
   * the flagged ids in the order the loop meets them.
   */
  function RetirePass<H, O>(step: Step<H, O>, reg: seq<DirtyInfo<H>>, objs: map<Id, O>, earliest: int): (r: (seq<DirtyInfo<H>>, map<Id, O>, seq<Id>))
    requires IdsOf(reg) <= objs.Keys
    ensures r.1.Keys == objs.Keys && |r.0| <= |reg|
    decreases |reg|
  {
    if reg == [] then ([], objs, [])
    else
      TailIds(reg);
      var rest := RetirePass(step, reg[1..], objs, earliest);
      var x := reg[0];
      if !Retained(x, earliest) then rest
      else
        var s := step(x, rest.1[x.obj]);
        ([s.0] + rest.0, rest.1[x.obj := s.1], rest.2 + (if s.2 then [x.obj] else []))
  }

  /** The retiring pass over reg[i..] in terms of the pass over reg[i + 1..]. */
  lemma RetireUnfold<H, O>(step: Step<H, O>, reg: seq<DirtyInfo<H>>, objs: map<Id, O>, earliest: int, i: nat)
    requires i < |reg| && IdsOf(reg) <= objs.Keys
    ensures IdsOf(reg[i..]) <= objs.Keys && IdsOf(reg[i + 1..]) <= objs.Keys && reg[i].obj in objs
    ensures var rest := RetirePass(step, reg[i + 1..], objs, earliest);
            var x := reg[i];
            RetirePass(step, reg[i..], objs, earliest) ==
              if !Retained(x, earliest) then rest
              else
                var s := step(x, rest.1[x.obj]);
                ([s.0] + rest.0, rest.1[x.obj := s.1], rest.2 + (if s.2 then [x.obj] else []))
  {
    SuffixIds(reg, i);
    SuffixIds(reg, i + 1);
    TailIds(reg[i..]);
    assert reg[i..][1..] == reg[i + 1..];
  }

  /**
   * The backward retiring loop with entries i.. of reg0 done: the front of the registry is untouched,
   * its back holds the survivors of the pass over reg0[i..], and every object is still tracked once.
   */
  ghost predicate RetiredFrom<H, O>(step: Step<H, O>, reg0: seq<DirtyInfo<H>>, objs0: map<Id, O>, earliest: int, i: nat,
                                    reg: seq<DirtyInfo<H>>, objs: map<Id, O>, flagged: seq<Id>)
  {
    i <= |reg0| && i <= |reg| && IdsOf(reg0) <= objs0.Keys && IdsOf(reg0[i..]) <= objs0.Keys
    && reg[..i] == reg0[..i]
    && multiset(reg[i..]) == multiset(RetirePass(step, reg0[i..], objs0, earliest).0)
    && objs == RetirePass(step, reg0[i..], objs0, earliest).1
    && flagged == RetirePass(step, reg0[i..], objs0, earliest).2
    && UniqueIds(reg) && IdsOf(reg) <= objs0.Keys
  }

  lemma RetireStart<H, O>(step: Step<H, O>, reg0: seq<DirtyInfo<H>>, objs0: map<Id, O>, earliest: int)
    requires UniqueIds(reg0) && IdsOf(reg0) <= objs0.Keys
    ensures RetiredFrom(step, reg0, objs0, earliest, |reg0|, reg0, objs0, [])
  {
    assert reg0[|reg0|..] == [];
    assert reg0[..|reg0|] == reg0;
  }

  /** Swap-removing a stale entry i - 1 moves the retiring loop back by one entry. */
  lemma RetireDropStep<H, O>(step: Step<H, O>, reg0: seq<DirtyInfo<H>>, objs0: map<Id, O>, earliest: int, i: nat,
                             reg: seq<DirtyInfo<H>>, objs: map<Id, O>, flagged: seq<Id>)
    requires RetiredFrom(step, reg0, objs0, earliest, i, reg, objs, flagged) && 0 < i
    ensures reg[i - 1] == reg0[i - 1]
    ensures !Retained(reg[i - 1], earliest) ==>
              RetiredFrom(step, reg0, objs0, earliest, i - 1, RemoveAtSwap(reg, i - 1), objs, flagged)
  {
    var k := i - 1;
    assert reg[k] == reg[..i][k] == reg0[k];
    if !Retained(reg[k], earliest) {
      RetireUnfold(step, reg0, objs0, earliest, k);
      assert RetirePass(step, reg0[k..], objs0, earliest) == RetirePass(step, reg0[i..], objs0, earliest);
      RemoveAtSwapIds(reg, k);
      var r := RemoveAtSwap(reg, k);
      assert r[..k] == reg0[..k] by {
        assert r[..k] == reg[..k] == reg[..i][..k];
      }
      assert multiset(r[k..]) == multiset(reg[i..]);
    }
  }

  /** Stepping a retained entry i - 1 in place moves the retiring loop back by one entry. */
  lemma RetireKeepStep<H(!new), O(!new)>(step: Step<H, O>, reg0: seq<DirtyInfo<H>>, objs0: map<Id, O>, earliest: int, i: nat,
                                         reg: seq<DirtyInfo<H>>, objs: map<Id, O>, flagged: seq<Id>)
    requires RetiredFrom(step, reg0, objs0, earliest, i, reg, objs, flagged) && 0 < i && KeepsObject(step)
    requires Retained(reg[i - 1], earliest)
    ensures reg[i - 1].obj in objs
    ensures var x := reg[i - 1];
            var s := step(x, objs[x.obj]);
            RetiredFrom(step, reg0, objs0, earliest, i - 1, reg[i - 1 := s.0], objs[x.obj := s.1],
                        flagged + if s.2 then [x.obj] else [])
  {
    var k := i - 1;
    assert reg[k] == reg[..i][k] == reg0[k];
    RetireUnfold(step, reg0, objs0, earliest, k);
    var x := reg[k];
    var s := step(x, objs[x.obj]);
    var r := reg[k := s.0];
    SetEntryKeepsIds(reg, k, s.0);
    assert r[k..] == [s.0] + reg[i..];
    assert r[..k] == reg[..i][..k];
  }

  /** When the retiring loop has handled every entry it has computed the whole pass. */
  lemma RetireDone<H, O>(step: Step<H, O>, reg0: seq<DirtyInfo<H>>, objs0: map<Id, O>, earliest: int,
                         reg: seq<DirtyInfo<H>>, objs: map<Id, O>, flagged: seq<Id>)
    requires RetiredFrom(step, reg0, objs0, earliest, 0, reg, objs, flagged)
    ensures var r := RetirePass(step, reg0, objs0, earliest);
            multiset(reg) == multiset(r.0) && objs == r.1 && flagged == r.2
  {
    assert reg0[0..] == reg0;
    assert reg[0..] == reg;
  }

  /**
   * The backward loop: from the last entry to the first, a stale entry is removed by moving the last
   * entry into its place and every other entry is stepped in place; the flagged ids are collected in
   * the order the loop meets them. Every object stays tracked once.
   */
  method RetireAll<H(!new), O(!new)>(step: Step<H, O>, reg0: seq<DirtyInfo<H>>, objs0: map<Id, O>, earliest: int)
    returns (reg: seq<DirtyInfo<H>>, objs: map<Id, O>, flagged: seq<Id>)
    requires UniqueIds(reg0) && IdsOf(reg0) <= objs0.Keys && KeepsObject(step)
    ensures var r := RetirePass(step, reg0, objs0, earliest);
            multiset(reg) == multiset(r.0) && objs == r.1 && flagged == r.2
    ensures UniqueIds(reg) && IdsOf(reg) <= objs0.Keys
  {
    reg, objs, flagged := reg0, objs0, [];
    RetireStart(step, reg0, objs0, earliest);
    var i: nat := |reg|;
    while i > 0
      invariant RetiredFrom(step, reg0, objs0, earliest, i, reg, objs, flagged)
    {
      RetireDropStep(step, reg0, objs0, earliest, i, reg, objs, flagged);
      var info := reg[i - 1];
      if info.lastDirtyFrame < earliest {
        reg := RemoveAtSwap(reg, i - 1);
      } else {
        RetireKeepStep(step, reg0, objs0, earliest, i, reg, objs, flagged);
        var s := step(info, objs[info.obj]);
        reg := reg[i - 1 := s.0];
        objs := objs[info.obj := s.1];
        flagged := flagged + if s.2 then [info.obj] else [];
      }
      i := i - 1;
    }
    RetireDone(step, reg0, objs0, earliest, reg, objs, flagged);
  }

  /**
   * With every object tracked once, the retiring pass leaves the live value of a stale object, and of
   * an object it does not track, as it was.
   */
  lemma {:induction false} RetirePassUntouched<H, O>(step: Step<H, O>, reg: seq<DirtyInfo<H>>, objs: map<Id, O>, earliest: int)
    requires UniqueIds(reg) && IdsOf(reg) <= objs.Keys
    ensures forall x :: x in reg && !Retained(x, earliest) ==> RetirePass(step, reg, objs, earliest).1[x.obj] == objs[x.obj]
    ensures forall id :: id in objs && id !in IdsOf(reg) ==> RetirePass(step, reg, objs, earliest).1[id] == objs[id]
    decreases |reg|
  {
    if reg != [] {
      TailIds(reg);
      var tl := reg[1..];
      RetirePassUntouched(step, tl, objs, earliest);
      var x := reg[0];
      var r := RetirePass(step, reg, objs, earliest);
      forall z | z in reg && !Retained(z, earliest) ensures r.1[z.obj] == objs[z.obj] {
        if z != x {
          assert z in tl;
          assert z.obj in IdsOf(tl);
        }
      }
    }
  }

  /**
   * With every object tracked once, a retained object gets its step applied to its original live
   * value and its stepped entry survives.
   */
  lemma {:induction false} RetirePassPerObject<H, O>(step: Step<H, O>, reg: seq<DirtyInfo<H>>, objs: map<Id, O>, earliest: int)
    requires UniqueIds(reg) && IdsOf(reg) <= objs.Keys
    ensures forall x :: x in reg && Retained(x, earliest) ==>
              step(x, objs[x.obj]).0 in RetirePass(step, reg, objs, earliest).0
              && RetirePass(step, reg, objs, earliest).1[x.obj] == step(x, objs[x.obj]).1
    decreases |reg|
  {
    if reg != [] {
      TailIds(reg);
      var tl := reg[1..];
      RetirePassPerObject(step, tl, objs, earliest);
      RetirePassUntouched(step, tl, objs, earliest);
      var x := reg[0];
      var rest := RetirePass(step, tl, objs, earliest);
      assert rest.1[x.obj] == objs[x.obj];
      var r := RetirePass(step, reg, objs, earliest);
      forall z | z in reg && Retained(z, earliest)
        ensures step(z, objs[z.obj]).0 in r.0 && r.1[z.obj] == step(z, objs[z.obj]).1
      {
        if z != x {
          assert z in tl;
          assert z.obj in IdsOf(tl);
        }
      }
    }
  }

  /** With every object tracked once, every entry that survives the retiring pass is the step of a retained entry. */
  lemma {:induction false} RetirePassSurvivors<H, O>(step: Step<H, O>, reg: seq<DirtyInfo<H>>, objs: map<Id, O>, earliest: int)
    requires UniqueIds(reg) && IdsOf(reg) <= objs.Keys
    ensures forall y :: y in RetirePass(step, reg, objs, earliest).0 ==>
              exists x :: x in reg && Retained(x, earliest) && y == step(x, objs[x.obj]).0
    decreases |reg|
  {
    if reg != [] {
      TailIds(reg);
      var tl := reg[1..];
      RetirePassSurvivors(step, tl, objs, earliest);
      RetirePassUntouched(step, tl, objs, earliest);
      var x := reg[0];
      var rest := RetirePass(step, tl, objs, earliest);
      assert rest.1[x.obj] == objs[x.obj];
      forall y | y in RetirePass(step, reg, objs, earliest).0
        ensures exists x :: x in reg && Retained(x, earliest) && y == step(x, objs[x.obj]).0
      {
        if y in rest.0 {
          var z :| z in tl && Retained(z, earliest) && y == step(z, objs[z.obj]).0;
          assert z in reg;
        } else {
          assert x in reg;
        }
      }
    }
  }

  /** With every object tracked once, the retiring pass flags exactly the retained objects whose step flags them. */
  lemma {:induction false} RetirePassFlags<H, O>(step: Step<H, O>, reg: seq<DirtyInfo<H>>, objs: map<Id, O>, earliest: int)
    requires UniqueIds(reg) && IdsOf(reg) <= objs.Keys
    ensures forall id :: id in RetirePass(step, reg, objs, earliest).2 <==>
              exists x :: x in reg && x.obj == id && Retained(x, earliest) && step(x, objs[x.obj]).2
    decreases |reg|
  {
    if reg != [] {
      TailIds(reg);
      var tl := reg[1..];
      RetirePassFlags(step, tl, objs, earliest);
      RetirePassUntouched(step, tl, objs, earliest);
      var x := reg[0];
      var rest := RetirePass(step, tl, objs, earliest);
      assert rest.1[x.obj] == objs[x.obj];
    }
  }

  /** The tracked ids after the retiring pass are exactly the retained ones. */
  lemma RetirePassIds<H(!new), O(!new)>(step: Step<H, O>, reg: seq<DirtyInfo<H>>, objs: map<Id, O>, earliest: int)
    requires UniqueIds(reg) && IdsOf(reg) <= objs.Keys && KeepsObject(step)
    ensures IdsOf(RetirePass(step, reg, objs, earliest).0) == set x | x in reg && Retained(x, earliest) :: x.obj
  {
    RetirePassPerObject(step, reg, objs, earliest);
    RetirePassSurvivors(step, reg, objs, earliest);
    var r := RetirePass(step, reg, objs, earliest).0;
    forall id | id in IdsOf(r) ensures id in set x | x in reg && Retained(x, earliest) :: x.obj {
      var i :| 0 <= i < |r| && r[i].obj == id;
      assert r[i] in r;
      var x :| x in reg && Retained(x, earliest) && r[i] == step(x, objs[x.obj]).0;
    }
    forall id | id in set x | x in reg && Retained(x, earliest) :: x.obj ensures id in IdsOf(r) {
      var x :| x in reg && Retained(x, earliest) && x.obj == id;
      var y := step(x, objs[x.obj]).0;
      var i :| 0 <= i < |r| && r[i] == y;
    }
  }
}
