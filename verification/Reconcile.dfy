/** The customizedVariables reconcile of `configure_acm_to_import_mce_clusters`: drop duplicate
    names, make sure configureMceImport is "true", patch only if something changed. */
module Reconcile {
  import opened Py

  const MCE := Some("configureMceImport")
  const TRUE := Some("true")

  datatype Variable = Variable(name: Option<string>, value: Option<string>)

  predicate HasName(vars: seq<Variable>, name: Option<string>) {
    exists i :: 0 <= i < |vars| && vars[i].name == name
  }

  ghost predicate UniqueNames(vars: seq<Variable>) {
    forall i, j :: 0 <= i < j < |vars| ==> vars[i].name != vars[j].name
  }

  /** The first occurrence of every name. */
  function Dedup(vars: seq<Variable>): seq<Variable> {
    if vars == [] then [] else
    var n := |vars| - 1;
    Dedup(vars[..n]) + if HasName(vars[..n], vars[n].name) then [] else [vars[n]]
  }

  function Enabled(v: Variable): Variable { if v.name == MCE then v.(value := TRUE) else v }

  /** Every configureMceImport entry enabled, one appended if there is none. */
  function WithImport(vars: seq<Variable>): seq<Variable> {
    seq(|vars|, i requires 0 <= i < |vars| => Enabled(vars[i]))
    + if HasName(vars, MCE) then [] else [Variable(MCE, TRUE)]
  }

  function Reconciled(vars: seq<Variable>): seq<Variable> { WithImport(Dedup(vars)) }

  // ------------------------------------------------------------------------- the two loops

  method RemoveDuplicates(existing: seq<Variable>) returns (vars: seq<Variable>, changed: bool)
    ensures vars == Dedup(existing)
    ensures changed <==> !UniqueNames(existing)
  {
    vars, changed := [], false;
    var seen: set<Option<string>> := {};
    for i := 0 to |existing|
      invariant vars == Dedup(existing[..i])
      invariant forall n :: n in seen <==> HasName(existing[..i], n)
      invariant changed <==> !UniqueNames(existing[..i])
    {
      var v := existing[i];
      assert existing[..i + 1][..i] == existing[..i];
      SnocNames(existing, i);
      if v.name !in seen {
        seen := seen + {v.name};
        vars := vars + [v];
      } else {
        changed := true;
      }
    }
    assert existing[..|existing|] == existing;
  }

  lemma {:induction false} SnocNames(vars: seq<Variable>, i: nat)
    requires i < |vars|
    ensures forall n :: HasName(vars[..i + 1], n) <==> HasName(vars[..i], n) || n == vars[i].name
    ensures UniqueNames(vars[..i + 1]) <==> UniqueNames(vars[..i]) && !HasName(vars[..i], vars[i].name)
  {
    var a, b := vars[..i], vars[..i + 1];
    assert b[i] == vars[i];
    assert forall k :: 0 <= k < i ==> a[k] == b[k];
    forall n ensures HasName(b, n) <==> HasName(a, n) || n == vars[i].name {
      if HasName(a, n) {
        var k :| 0 <= k < i && a[k].name == n;
        assert b[k].name == n;
      }
      if n == vars[i].name { assert b[i].name == n; }
    }
    if UniqueNames(b) {
      forall k | 0 <= k < i ensures a[k].name != vars[i].name { assert b[k].name != b[i].name; }
      forall k, l | 0 <= k < l < i ensures a[k].name != a[l].name { assert b[k].name != b[l].name; }
    }
  }

  method EnableImport(input: seq<Variable>) returns (vars: seq<Variable>, changed: bool)
    requires UniqueNames(input)
    ensures vars == WithImport(input)
    ensures changed <==> vars != input
  {
    vars, changed := input, false;
    var exists_ := false;
    for i := 0 to |vars|
      invariant vars == input && !changed && !exists_
      invariant forall k :: 0 <= k < i ==> input[k].name != MCE
    {
      if vars[i].name == MCE {
        if vars[i].value != TRUE {
          vars := vars[i := vars[i].(value := TRUE)];
          changed := true;
        }
        exists_ := true;
        break;
      }
    }
    if !exists_ {
      vars := vars + [Variable(MCE, TRUE)];
      changed := true;
    }
  }

  /** The reconcile: the result, and whether it is patched in. */
  method Reconcile(existing: seq<Variable>) returns (vars: seq<Variable>, needsPatch: bool)
    ensures vars == Reconciled(existing)
    ensures needsPatch <==> vars != existing
  {
    var deduplicated, removed := RemoveDuplicates(existing);
    DedupUnique(existing);
    if !removed { DedupSame(existing); }
    var enabled;
    vars, enabled := EnableImport(deduplicated);
    needsPatch := removed || enabled;
    WithImportUnique(deduplicated);
  }

  // -------------------------------------------------------------------- what it guarantees

  lemma {:induction false} DedupNames(vars: seq<Variable>, n: Option<string>)
    ensures HasName(Dedup(vars), n) <==> HasName(vars, n)
  {
    if vars != [] {
      var m := |vars| - 1;
      DedupNames(vars[..m], n);
      DedupNames(vars[..m], vars[m].name);
      assert vars[..m + 1] == vars;
      SnocNames(vars, m);
      var d, init := Dedup(vars), Dedup(vars[..m]);
      if !HasName(vars[..m], vars[m].name) {
        assert d == init + [vars[m]];
        assert d[..|init| + 1] == d && d[..|init|] == init;
        SnocNames(d, |init|);
      }
    }
  }

  lemma {:induction false} DedupUnique(vars: seq<Variable>)
    ensures UniqueNames(Dedup(vars))
  {
    if vars != [] {
      var m := |vars| - 1;
      DedupUnique(vars[..m]);
      DedupNames(vars[..m], vars[m].name);
    }
  }

  lemma {:induction false} DedupSame(vars: seq<Variable>)
    requires UniqueNames(vars)
    ensures Dedup(vars) == vars
  {
    if vars != [] {
      var m := |vars| - 1;
      DedupSame(vars[..m]);
      assert vars[..m + 1] == vars;
      SnocNames(vars, m);
    }
  }

  lemma {:induction false} WithImportUnique(vars: seq<Variable>)
    requires UniqueNames(vars)
    ensures UniqueNames(WithImport(vars))
  {
    var w := WithImport(vars);
    assert forall i :: 0 <= i < |vars| ==> w[i].name == vars[i].name;
    if !HasName(vars, MCE) { assert forall i :: 0 <= i < |vars| ==> vars[i].name != MCE; }
  }

  /** Entry k of the deduplicated list is entry idx[k] of the input, the first with its name;
      the indices increase, and no name is lost. */
  lemma {:induction false} FirstOccurrences(vars: seq<Variable>) returns (idx: seq<nat>)
    ensures |idx| == |Dedup(vars)|
    ensures forall k :: 0 <= k < |idx| ==> idx[k] < |vars| && Dedup(vars)[k] == vars[idx[k]]
    ensures forall k :: 0 <= k < |idx| ==> !HasName(vars[..idx[k]], vars[idx[k]].name)
    ensures forall k, l :: 0 <= k < l < |idx| ==> idx[k] < idx[l]
    ensures forall n :: HasName(vars, n) ==> HasName(Dedup(vars), n)
  {
    forall n ensures HasName(vars, n) ==> HasName(Dedup(vars), n) { DedupNames(vars, n); }
    if vars == [] {
      idx := [];
    } else {
      var m := |vars| - 1;
      idx := FirstOccurrences(vars[..m]);
      forall k | 0 <= k < |idx|
        ensures vars[..m][idx[k]] == vars[idx[k]] && vars[..m][..idx[k]] == vars[..idx[k]]
      { }
      if !HasName(vars[..m], vars[m].name) { idx := idx + [m]; }
    }
  }

  /** RESULT: names are unique, configureMceImport is present and "true", every other entry of the
      deduplicated list keeps its place and value, and at most that one entry is appended. */
  lemma {:induction false} ReconciledMeaning(vars: seq<Variable>)
    ensures UniqueNames(Reconciled(vars))
    ensures Variable(Some("configureMceImport"), Some("true")) in Reconciled(vars)
    ensures |Dedup(vars)| <= |Reconciled(vars)| <= |Dedup(vars)| + 1
    ensures forall k :: 0 <= k < |Dedup(vars)| ==> Reconciled(vars)[k].name == Dedup(vars)[k].name
    ensures forall k :: 0 <= k < |Dedup(vars)| && Dedup(vars)[k].name != Some("configureMceImport") ==>
      Reconciled(vars)[k] == Dedup(vars)[k]
    ensures |Reconciled(vars)| == |Dedup(vars)| + 1 <==>
      !exists i :: 0 <= i < |vars| && vars[i].name == Some("configureMceImport")
  {
    var d, r := Dedup(vars), Reconciled(vars);
    DedupUnique(vars);
    WithImportUnique(d);
    DedupNames(vars, MCE);
    if HasName(d, MCE) {
      var i :| 0 <= i < |d| && d[i].name == MCE;
      assert r[i] == Variable(MCE, TRUE);
    } else {
      assert r[|d|] == Variable(MCE, TRUE);
    }
  }

  /** IDEMPOTENCE: reconciling the result changes nothing, so a second run patches nothing. */
  lemma {:induction false} SecondRun(vars: seq<Variable>)
    ensures Reconciled(Reconciled(vars)) == Reconciled(vars)
  {
    ReconciledMeaning(vars);
    AlreadyReconciled(Reconciled(vars));
  }

  lemma {:induction false} AlreadyReconciled(r: seq<Variable>)
    requires UniqueNames(r) && Variable(MCE, TRUE) in r
    ensures Reconciled(r) == r
  {
    DedupSame(r);
    var i :| 0 <= i < |r| && r[i] == Variable(MCE, TRUE);
    assert HasName(r, MCE);
    forall k | 0 <= k < |r| ensures Enabled(r[k]) == r[k] {
      if r[k].name == MCE { assert k == i; }
    }
    WithImportSame(r);
  }

  lemma {:induction false} WithImportSame(r: seq<Variable>)
    requires HasName(r, MCE) && forall k :: 0 <= k < |r| ==> Enabled(r[k]) == r[k]
    ensures WithImport(r) == r
  {
    assert |WithImport(r)| == |r|;
  }

  /** One duplicate removed and one entry appended leaves the length unchanged but still patches. */
  lemma {:induction false} SameLengthStillPatches(a: Variable, b: Variable)
    requires a.name == b.name && a.name != MCE
    ensures |Reconciled([a, b])| == 2 && Reconciled([a, b]) != [a, b]
  {
    ReconciledMeaning([a, b]);
    var i :| 0 <= i < |Reconciled([a, b])| && Reconciled([a, b])[i] == Variable(MCE, TRUE);
    assert [a, b][..1] == [a] && [a][..0] == [];
    assert [a][0].name == b.name;
    assert Dedup([a]) == [a];
    assert Dedup([a, b]) == [a];
  }
}
