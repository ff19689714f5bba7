/** CModulesCollection: up to eight loaded modules, each counted once for being
    listed and once for every live frame that runs one of its procedures. */
module Modules {
  import opened Wrappers
  import opened GlobalsTable

  const KMaxModules: nat := 8

  /** What the procedure table and the header of a procedure declare. params are
      the types of the parameters, last one first. */
  datatype ProcDef = ProcDef(
    name: Name, iGlobals: seq<Decl>, iParamList: seq<int>, iExternals: seq<(Name, int)>, iMaxStack: nat)

  class CModule {
    const iOpoName: Name
    const iProcs: seq<ProcDef>
    var iAccessCount: int
    ghost var freed: bool

    constructor (name: Name, procs: seq<ProcDef>)
      ensures iOpoName == name && iProcs == procs && iAccessCount == 0 && !freed
    {
      iOpoName, iProcs, iAccessCount, freed := name, procs, 0, false;
    }

    method IncCount()
      modifies this`iAccessCount
      ensures iAccessCount == old(iAccessCount) + 1
    {
      iAccessCount := iAccessCount + 1;
    }

    /** Deletes the module with the last count. */
    method DecCount()
      requires !freed
      modifies this
      ensures iAccessCount == old(iAccessCount) - 1
      ensures freed == (iAccessCount == 0)
    {
      iAccessCount := iAccessCount - 1;
      if iAccessCount == 0 {
        freed := true;
      }
    }
  }

  /** How often m occurs. */
  ghost function Times(running: seq<CModule>, m: CModule): (n: nat)
    ensures m in running <==> n > 0
  {
    if running == [] then 0 else (if running[0] == m then 1 else 0) + Times(running[1..], m)
  }

  ghost function OnList(listed: seq<CModule>, m: CModule): int {
    if m in listed then 1 else 0
  }

  /** The listed modules have distinct file names. */
  ghost predicate Distinct(listed: seq<CModule>) {
    forall i, j :: 0 <= i < j < |listed| ==> listed[i].iOpoName != listed[j].iOpoName
  }

  ghost predicate Named(listed: seq<CModule>, name: Name) {
    exists i :: 0 <= i < |listed| && listed[i].iOpoName == name
  }

  function FindIn(procs: seq<ProcDef>, name: Name): Option<ProcDef> {
    if procs == [] then None else if procs[0].name == name then Some(procs[0]) else FindIn(procs[1..], name)
  }

  /** The first module with such a procedure, in order of loading. */
  function FirstWith(listed: seq<CModule>, name: Name): (r: Option<(CModule, ProcDef)>)
    ensures r.Some? ==> r.value.0 in listed && r.value.1 in r.value.0.iProcs
  {
    if listed == [] then None
    else
      var p := FindIn(listed[0].iProcs, name);
      if p.Some? then FoundIn(listed[0].iProcs, name); Some((listed[0], p.value)) else FirstWith(listed[1..], name)
  }

  lemma {:induction false} FoundIn(procs: seq<ProcDef>, name: Name)
    ensures FindIn(procs, name).Some? ==> FindIn(procs, name).value in procs
  {
    if procs != [] {
      FoundIn(procs[1..], name);
    }
  }

  ghost predicate HasProcedure(m: CModule, name: Name) {
    exists j :: 0 <= j < |m.iProcs| && m.iProcs[j].name == name
  }

  /** p is the first procedure of m with that name. */
  ghost predicate IsFirstIn(m: CModule, name: Name, p: ProcDef) {
    exists j :: 0 <= j < |m.iProcs| && m.iProcs[j] == p && p.name == name && forall i :: 0 <= i < j ==> m.iProcs[i].name != name
  }

  /** No module listed before m has a procedure of that name. */
  ghost predicate IsFirstWith(listed: seq<CModule>, name: Name, m: CModule) {
    exists k :: 0 <= k < |listed| && listed[k] == m && forall i :: 0 <= i < k ==> !HasProcedure(listed[i], name)
  }

  /** The search of the table of one module. */
  lemma {:induction false} FoundInIsFirst(m: CModule, k: nat, name: Name)
    requires k <= |m.iProcs| && forall i :: 0 <= i < k ==> m.iProcs[i].name != name
    ensures var r := FindIn(m.iProcs[k..], name);
            && (r.Some? ==> IsFirstIn(m, name, r.value))
            && (r.Some? <==> HasProcedure(m, name))
    decreases |m.iProcs| - k
  {
    if k < |m.iProcs| && m.iProcs[k].name != name {
      DropOneMore(m.iProcs, k);
      FoundInIsFirst(m, k + 1, name);
    }
  }

  /** A procedure is found in the first of the listed modules that has one of
      that name, and there it is the first; it is found if any of them has. */
  lemma {:induction false} FirstWithIsFirst(listed: seq<CModule>, name: Name)
    ensures var r := FirstWith(listed, name);
            && (r.None? <==> forall k :: 0 <= k < |listed| ==> !HasProcedure(listed[k], name))
            && (r.Some? ==> IsFirstIn(r.value.0, name, r.value.1) && IsFirstWith(listed, name, r.value.0))
  {
    if listed != [] {
      var m := listed[0];
      assert m.iProcs[0..] == m.iProcs;
      FoundInIsFirst(m, 0, name);
      FirstWithIsFirst(listed[1..], name);
      var r := FirstWith(listed, name);
      if FindIn(m.iProcs, name).None? {
        assert forall k :: 0 < k < |listed| ==> listed[1..][k - 1] == listed[k];
        if r.Some? {
          var k :| 0 <= k < |listed[1..]| && listed[1..][k] == r.value.0
                   && forall i :: 0 <= i < k ==> !HasProcedure(listed[1..][i], name);
          assert listed[k + 1] == r.value.0;
          assert forall i :: 0 < i < k + 1 ==> listed[1..][i - 1] == listed[i];
        }
      }
    }
  }

  /** The list without number i, the order kept. */
  function Without(listed: seq<CModule>, i: nat): seq<CModule>
    requires i < |listed|
  {
    listed[..i] + listed[i + 1..]
  }

  lemma {:induction false} WithoutMembers(listed: seq<CModule>, i: nat)
    requires i < |listed| && Distinct(listed)
    ensures Distinct(Without(listed, i))
    ensures forall m :: m in Without(listed, i) <==> m in listed && m != listed[i]
    ensures !Named(Without(listed, i), listed[i].iOpoName)
  {
    var w := Without(listed, i);
    forall m | m in listed && m != listed[i]
      ensures m in w
    {
      var k :| 0 <= k < |listed| && listed[k] == m;
      assert w[if k < i then k else k - 1] == m;
    }
  }

  /** The module of that name is off the list, the others are as they were. */
  ghost predicate OneGone(was: seq<CModule>, name: Name, now: seq<CModule>) {
    exists at: nat :: at < |was| && was[at].iOpoName == name && now == Without(was, at)
  }

  datatype LoadResult = Loaded | ModLoad | MaxLoad | CannotLoad

  class CModulesCollection {
    const iModule: array<CModule?>
    var iNumModulesLoaded: nat
    /** Every module ever made, and the module of each live frame, innermost first. */
    ghost var made: set<CModule>
    ghost var running: seq<CModule>
    ghost var listed: seq<CModule>

    ghost predicate Counted(m: CModule)
      reads this, m
    {
      m.iAccessCount == OnList(listed, m) + Times(running, m) && m.freed == (m.iAccessCount == 0)
    }

    /** The array holds the listed modules without a gap. */
    ghost predicate Shape()
      reads this, iModule
    {
      && iModule.Length == KMaxModules && iNumModulesLoaded == |listed| <= KMaxModules
      && (forall i :: 0 <= i < |listed| ==> iModule[i] == listed[i])
      && (forall i :: |listed| <= i < KMaxModules ==> iModule[i] == null)
    }

    ghost predicate Valid()
      reads this, iModule, made
    {
      && Shape() && Distinct(listed)
      && (forall m :: m in listed ==> m in made)
      && (forall m :: m in running ==> m in made)
      && (forall m :: m in made ==> Counted(m))
    }

    /** What runs is alive, listed or not. */
    lemma {:induction false} RunningAlive(m: CModule)
      requires Valid() && (m in running || m in listed)
      ensures m in made && !m.freed
    {
      assert Counted(m);
    }

    lemma {:induction false} DistinctNames()
      requires Valid()
      ensures Distinct(listed)
    {
    }

    constructor ()
      ensures Valid() && fresh(iModule) && listed == [] && running == [] && made == {}
    {
      iModule := new CModule?[KMaxModules](_ => null);
      iNumModulesLoaded := 0;
      made, running, listed := {}, [], [];
    }

    method IndexOf(aFileName: Name) returns (i: nat)
      requires Valid()
      ensures i <= |listed|
      ensures i < |listed| ==> listed[i].iOpoName == aFileName
      ensures i == |listed| <==> !Named(listed, aFileName)
    {
      i := 0;
      while i < iNumModulesLoaded
        invariant 0 <= i <= |listed|
        invariant forall k :: 0 <= k < i ==> listed[k].iOpoName != aFileName
      {
        if iModule[i].iOpoName == aFileName {
          return;
        }
        i := i + 1;
      }
    }

    method FindProcedure(aProcName: Name) returns (r: Option<(CModule, ProcDef)>)
      requires Valid()
      ensures r == FirstWith(listed, aProcName)
      ensures r.None? <==> forall k :: 0 <= k < |listed| ==> !HasProcedure(listed[k], aProcName)
      ensures r.Some? ==> IsFirstIn(r.value.0, aProcName, r.value.1) && IsFirstWith(listed, aProcName, r.value.0)
    {
      FirstWithIsFirst(listed, aProcName);
      var i := 0;
      assert listed[0..] == listed;
      while i < iNumModulesLoaded
        invariant 0 <= i <= |listed|
        invariant FirstWith(listed[i..], aProcName) == FirstWith(listed, aProcName)
      {
        assert listed[i..][1..] == listed[i + 1..];
        var p := FindIn(iModule[i].iProcs, aProcName);
        if p.Some? {
          return Some((iModule[i], p.value));
        }
        i := i + 1;
      }
      r := None;
    }

    /** Exactly one module is added, and only when the name is new, there is a
        slot and the file can be read. */
    method LoadModuleL(fileName: Name, file: Option<seq<ProcDef>>) returns (r: LoadResult)
      requires Valid()
      modifies this`listed, this`made, this`iNumModulesLoaded, iModule
      ensures Valid() && old(made) <= made && fresh(made - old(made))
      ensures r == ModLoad <==> Named(old(listed), fileName)
      ensures r == MaxLoad <==> !Named(old(listed), fileName) && |old(listed)| == KMaxModules
      ensures r == Loaded <==> !Named(old(listed), fileName) && |old(listed)| < KMaxModules && file.Some?
      ensures r != Loaded ==> listed == old(listed)
      ensures r == Loaded ==>
                && |listed| == |old(listed)| + 1 && listed[..|old(listed)|] == old(listed)
                && listed[|old(listed)|].iOpoName == fileName && listed[|old(listed)|].iProcs == file.value
    {
      var i := IndexOf(fileName);
      if i < iNumModulesLoaded {
        return ModLoad;
      }
      if iNumModulesLoaded == KMaxModules {
        return MaxLoad;
      }
      if file == None {
        return CannotLoad;
      }
      AppendModule(fileName, file.value);
      r := Loaded;
    }

    /** A module read from its file takes the next slot. */
    method AppendModule(fileName: Name, procs: seq<ProcDef>)
      requires Valid() && !Named(listed, fileName) && |listed| < KMaxModules
      modifies this`listed, this`made, this`iNumModulesLoaded, iModule
      ensures Valid() && old(made) <= made && fresh(made - old(made))
      ensures |listed| == |old(listed)| + 1 && listed[..|old(listed)|] == old(listed)
      ensures listed[|old(listed)|].iOpoName == fileName && listed[|old(listed)|].iProcs == procs
    {
      var mod := new CModule(fileName, procs);
      iModule[iNumModulesLoaded] := mod;
      mod.IncCount();
      iNumModulesLoaded := iNumModulesLoaded + 1;
      listed := listed + [mod];
      made := made + {mod};
    }

    /** Only takes the module off the list; its code goes when the last frame
        that runs it goes. */
    method UnloadModule(fileName: Name) returns (found: bool, ghost at: nat)
      requires Valid()
      modifies this`listed, this`iNumModulesLoaded, iModule, made
      ensures Valid()
      ensures found == Named(old(listed), fileName)
      ensures !found ==> listed == old(listed) && forall m :: m in made ==> m.freed == old(m.freed)
      ensures found ==> at < |old(listed)| && old(listed)[at].iOpoName == fileName && listed == Without(old(listed), at)
      ensures found ==> forall m :: m in made && m != old(listed)[at] ==> m.freed == old(m.freed)
      ensures found ==> (old(listed)[at].freed <==> old(listed)[at] !in running)
    {
      hide Times;
      var i := IndexOf(fileName);
      at := i;
      if i == iNumModulesLoaded {
        return false, at;
      }
      ghost var was := listed;
      assert was[at] in made && Counted(was[at]);
      WithoutMembers(was, at);
      iModule[i].DecCount();
      Close(i);
      iNumModulesLoaded := iNumModulesLoaded - 1;
      listed := Without(was, at);
      assert Shape();
      found := true;
    }

    /** Shifts the later modules down over slot from. */
    method Close(from: nat)
      requires iModule.Length == KMaxModules && from < iNumModulesLoaded <= KMaxModules
      modifies iModule
      ensures forall k :: 0 <= k < from ==> iModule[k] == old(iModule[k])
      ensures forall k :: from <= k < iNumModulesLoaded - 1 ==> iModule[k] == old(iModule[k + 1])
      ensures iModule[iNumModulesLoaded - 1] == null
      ensures forall k :: iNumModulesLoaded <= k < KMaxModules ==> iModule[k] == old(iModule[k])
    {
      var i := from;
      while i < iNumModulesLoaded - 1
        invariant from <= i <= iNumModulesLoaded - 1
        invariant forall k :: 0 <= k < from ==> iModule[k] == old(iModule[k])
        invariant forall k :: from <= k < i ==> iModule[k] == old(iModule[k + 1])
        invariant forall k :: i <= k < KMaxModules ==> iModule[k] == old(iModule[k])
      {
        iModule[i] := iModule[i + 1];
        i := i + 1;
      }
      iModule[i] := null;
    }

    /** A frame starts to run a procedure of m. */
    method IncCountL(m: CModule)
      requires Valid() && m in made && !m.freed
      modifies this`running, m
      ensures Valid() && running == [m] + old(running) && !m.freed
    {
      ghost var was := running;
      assert Counted(m);
      m.IncCount();
      running := [m] + running;
      assert running[1..] == was;
    }

    /** The innermost frame goes. Its module is deleted only when it was taken
        off the list meanwhile and no other frame runs it. */
    method DecCount(m: CModule)
      requires Valid() && running != [] && running[0] == m
      modifies this`running, m
      ensures Valid() && running == old(running)[1..]
      ensures m.freed <==> m !in listed && m !in running
    {
      assert Counted(m);
      m.DecCount();
      running := running[1..];
    }
  }
}
