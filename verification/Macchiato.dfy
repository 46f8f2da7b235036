/** The Macchiato machine keeps, in every frame, all variables in sight: flat tables copied on
    entry. It is compared with a chain of scopes, each of which keeps only its own variables. */
module Macchiato {
  import opened MacchiatoCode
  import opened Prelude

  // ----- flat frames

  /** A frame: its table of variables in sight, the procedures in sight, and the number of the
      iteration if it belongs to a loop. Variables are objects shared between tables. */
  datatype Frame = Frame(id: nat, slots: map<char, nat>, procedures: map<string, Instr>, iteration: nat)

  datatype Variable = Variable(name: char, declaredIn: nat, value: Int32)

  datatype Flat = Flat(frames: seq<Frame>, variables: map<nat, Variable>, nextVariable: nat)

  function Top(s: Flat): Frame
    requires s.frames != []
  {
    s.frames[|s.frames| - 1]
  }

  function WithTop(s: Flat, f: Frame): Flat
    requires s.frames != []
  {
    s.(frames := s.frames[|s.frames| - 1 := f])
  }

  predicate SlotsStored(s: Flat, f: Frame) {
    forall x :: x in f.slots ==> f.slots[x] in s.variables
  }

  function EnvOf(s: Flat, f: Frame): map<char, Int32>
    requires SlotsStored(s, f)
  {
    map x | x in f.slots :: s.variables[f.slots[x]].value
  }

  function OwnNames(s: Flat, f: Frame): set<char>
    requires SlotsStored(s, f)
  {
    set x | x in f.slots && s.variables[f.slots[x]].declaredIn == f.id
  }

  function ViewOf(s: Flat): View
    requires s.frames != [] ==> SlotsStored(s, Top(s))
  {
    if s.frames == [] then View(map[], {}, map[], 0, 0)
    else View(EnvOf(s, Top(s)), OwnNames(s, Top(s)), Top(s).procedures, Top(s).id, Top(s).iteration)
  }

  predicate Applies(op: Op, s: Flat) {
    match op
    case Enter(_) => true
    case SetVariable(name, _) => s.frames != [] && name in Top(s).slots && Top(s).slots[name] in s.variables
    case _ => s.frames != []
  }

  function Apply(op: Op, s: Flat): Flat
    requires Applies(op, s)
  {
    match op
    case Enter(id) =>
      if s.frames == [] then s.(frames := [Frame(id, map[], map[], 0)])
      else s.(frames := s.frames + [Frame(id, Top(s).slots, Top(s).procedures, 0)])
    case Leave => s.(frames := s.frames[..|s.frames| - 1])
    case NewVariable(name, value) =>
      WithTop(s, Top(s).(slots := Top(s).slots[name := s.nextVariable]))
      .(variables := s.variables[s.nextVariable := Variable(name, Top(s).id, value)], nextVariable := s.nextVariable + 1)
    case SetVariable(name, value) =>
      var v := Top(s).slots[name];
      s.(variables := s.variables[v := s.variables[v].(value := value)])
    case SetProcedure(procedure, declaration) =>
      WithTop(s, Top(s).(procedures := Top(s).procedures[procedure := declaration]))
    case NextIteration => WithTop(s, Top(s).(iteration := Top(s).iteration + 1))
  }

  // ----- a chain of scopes

  datatype Scope = Scope(id: nat, own: map<char, Int32>, procedures: map<string, Instr>, iteration: nat)

  type Chain = seq<Scope>

  /** The variables in sight: inner scopes hide outer ones. */
  function EnvChain(c: Chain): map<char, Int32> {
    if c == [] then map[] else EnvChain(c[..|c| - 1]) + c[|c| - 1].own
  }

  function ViewChain(c: Chain): View {
    if c == [] then View(map[], {}, map[], 0, 0)
    else
      var top := c[|c| - 1];
      View(EnvChain(c), top.own.Keys, top.procedures, top.id, top.iteration)
  }

  /** The chain after an assignment to the nearest variable of the name. */
  function Assigned(c: Chain, name: char, value: Int32): (r: Chain)
    ensures |r| == |c|
  {
    if c == [] then []
    else
      var top := c[|c| - 1];
      if name in top.own then c[..|c| - 1] + [top.(own := top.own[name := value])]
      else Assigned(c[..|c| - 1], name, value) + [top]
  }

  predicate AppliesChain(op: Op, c: Chain) {
    op.Enter? || c != []
  }

  function ApplyChain(op: Op, c: Chain): Chain
    requires AppliesChain(op, c)
  {
    match op
    case Enter(id) =>
      if c == [] then [Scope(id, map[], map[], 0)] else c + [Scope(id, map[], c[|c| - 1].procedures, 0)]
    case Leave => c[..|c| - 1]
    case NewVariable(name, value) =>
      var top := c[|c| - 1];
      c[|c| - 1 := top.(own := top.own[name := value])]
    case SetVariable(name, value) => Assigned(c, name, value)
    case SetProcedure(procedure, declaration) =>
      var top := c[|c| - 1];
      c[|c| - 1 := top.(procedures := top.procedures[procedure := declaration])]
    case NextIteration =>
      var top := c[|c| - 1];
      c[|c| - 1 := top.(iteration := top.iteration + 1)]
  }

  // ----- what the frames always satisfy

  ghost predicate SlotOk(s: Flat, i: nat, x: char)
    requires i < |s.frames| && x in s.frames[i].slots
  {
    var v := s.frames[i].slots[x];
    && v in s.variables && v < s.nextVariable && s.variables[v].name == x
    && (s.variables[v].declaredIn == s.frames[i].id
        || (i > 0 && x in s.frames[i - 1].slots && s.frames[i - 1].slots[x] == v))
  }

  ghost predicate FrameOk(s: Flat, i: nat)
    requires i < |s.frames|
  {
    && (forall x :: x in s.frames[i].slots ==> SlotOk(s, i, x))
    && (i > 0 ==> forall x :: x in s.frames[i - 1].slots ==> x in s.frames[i].slots)
  }

  ghost predicate IdsOk(s: Flat, nextFrame: nat) {
    && (forall i :: 0 <= i < |s.frames| ==> s.frames[i].id < nextFrame)
    && (forall i, j :: 0 <= i < j < |s.frames| ==> s.frames[i].id < s.frames[j].id)
    && (forall v :: v in s.variables ==> s.variables[v].declaredIn < nextFrame)
  }

  ghost predicate FramesOk(s: Flat) {
    && (forall i: nat :: i < |s.frames| ==> FrameOk(s, i))
    && (forall v :: v in s.variables ==> v < s.nextVariable)
  }

  function OwnValues(s: Flat, f: Frame): map<char, Int32>
    requires SlotsStored(s, f)
  {
    map x | x in f.slots && s.variables[f.slots[x]].declaredIn == f.id :: s.variables[f.slots[x]].value
  }

  lemma Stored(s: Flat, i: nat)
    requires i < |s.frames| && FrameOk(s, i)
    ensures SlotsStored(s, s.frames[i])
  {
    forall x | x in s.frames[i].slots ensures s.frames[i].slots[x] in s.variables { assert SlotOk(s, i, x); }
  }

  /** The scope that a frame stands for: its slots that hold variables declared in it. */
  ghost function ScopeOf(s: Flat, i: nat): Scope
    requires i < |s.frames| && FrameOk(s, i)
  {
    Stored(s, i);
    var f := s.frames[i];
    Scope(f.id, OwnValues(s, f), f.procedures, f.iteration)
  }

  /** The chain that the first n frames stand for. */
  ghost function ChainOf(s: Flat, n: nat): (c: Chain)
    requires FramesOk(s) && n <= |s.frames|
    ensures |c| == n && forall i :: 0 <= i < n ==> c[i] == ScopeOf(s, i)
  {
    if n == 0 then [] else ChainOf(s, n - 1) + [ScopeOf(s, n - 1)]
  }

  ghost function Abs(s: Flat): Chain
    requires FramesOk(s)
  {
    ChainOf(s, |s.frames|)
  }

  lemma EnvStep(s: Flat, i: nat)
    requires FramesOk(s) && i < |s.frames|
    ensures SlotsStored(s, s.frames[i]) && (i > 0 ==> SlotsStored(s, s.frames[i - 1]))
    ensures EnvOf(s, s.frames[i]) ==
      (if i == 0 then map[] else EnvOf(s, s.frames[i - 1])) + OwnValues(s, s.frames[i])
  {
    hide FramesOk;
    FrameFacts(s, i);
    Stored(s, i);
    if i > 0 {
      FrameFacts(s, i - 1);
      Stored(s, i - 1);
    }
    var env, own := EnvOf(s, s.frames[i]), OwnValues(s, s.frames[i]);
    forall x | x in env ensures x in own || (i > 0 && x in s.frames[i - 1].slots && env[x] == EnvOf(s, s.frames[i - 1])[x]) {
      assert SlotOk(s, i, x);
    }
  }

  /** A flat table holds for every name the variable of the nearest scope that declares it. */
  lemma {:induction false} SlotsAreNearest(s: Flat, i: nat)
    requires FramesOk(s) && i < |s.frames|
    ensures SlotsStored(s, s.frames[i]) && EnvOf(s, s.frames[i]) == EnvChain(ChainOf(s, i + 1))
  {
    hide ScopeOf, FramesOk, EnvOf, OwnValues, SlotsStored;
    EnvStep(s, i);
    OwnIs(s, i);
    var c := ChainOf(s, i + 1);
    assert c[..i] == ChainOf(s, i);
    if i > 0 { SlotsAreNearest(s, i - 1); }
  }

  lemma FrameFacts(s: Flat, i: nat)
    requires FramesOk(s) && i < |s.frames|
    ensures FrameOk(s, i)
  {
  }

  lemma OwnIs(s: Flat, i: nat)
    requires FramesOk(s) && i < |s.frames|
    ensures SlotsStored(s, s.frames[i]) && ScopeOf(s, i).own == OwnValues(s, s.frames[i])
  {
    Stored(s, i);
  }

  lemma ViewsAgree(s: Flat)
    requires FramesOk(s)
    ensures s.frames != [] ==> SlotsStored(s, Top(s))
    ensures ViewOf(s) == ViewChain(Abs(s))
  {
    hide FramesOk, EnvOf, OwnValues, EnvChain, OwnNames, FrameOk, SlotsStored;
    if s.frames != [] {
      var n := |s.frames| - 1;
      SlotsAreNearest(s, n);
      OwnIs(s, n);
      OwnNamed(s, Top(s));
    }
  }

  lemma OwnNamed(s: Flat, f: Frame)
    requires SlotsStored(s, f)
    ensures OwnValues(s, f).Keys == OwnNames(s, f)
  {
  }

  // ----- every change of the frames is the same change of the chain

  /** A frame stands for the same scope when it and its variables are the same. */
  lemma SameScope(s: Flat, t: Flat, i: nat)
    requires i < |s.frames| && i < |t.frames| && FrameOk(s, i) && s.frames[i] == t.frames[i]
    requires forall x :: x in s.frames[i].slots ==>
      s.frames[i].slots[x] in t.variables && t.variables[s.frames[i].slots[x]] == s.variables[s.frames[i].slots[x]]
    requires t.nextVariable >= s.nextVariable && (i > 0 ==> s.frames[i - 1].slots == t.frames[i - 1].slots)
    ensures FrameOk(t, i) && ScopeOf(t, i) == ScopeOf(s, i)
  {
    forall x | x in t.frames[i].slots ensures SlotOk(t, i, x) { assert SlotOk(s, i, x); }
    Stored(s, i);
    Stored(t, i);
  }

  lemma EnterCommutes(s: Flat, id: nat)
    requires FramesOk(s) && IdsOk(s, id)
    ensures var t := Apply(Enter(id), s);
      FramesOk(t) && IdsOk(t, id + 1) && Abs(t) == ApplyChain(Enter(id), Abs(s))
  {
    hide ScopeOf;
    var t := Apply(Enter(id), s);
    var n := |s.frames|;
    forall i: nat | i < n ensures FrameOk(t, i) && ScopeOf(t, i) == ScopeOf(s, i) {
      Stored(s, i);
      SameScope(s, t, i);
    }
    EnteredScope(s, id);
    if n > 0 { ScopeParts(s, n - 1); }
  }

  lemma ScopeParts(s: Flat, i: nat)
    requires i < |s.frames| && FrameOk(s, i)
    ensures var c := ScopeOf(s, i); var f := s.frames[i];
      c.id == f.id && c.procedures == f.procedures && c.iteration == f.iteration
  {
  }

  lemma EnteredScope(s: Flat, id: nat)
    requires FramesOk(s) && IdsOk(s, id)
    ensures var t := Apply(Enter(id), s); var n := |s.frames|;
      && |t.frames| == n + 1 && FrameOk(t, n)
      && ScopeOf(t, n) == Scope(id, map[], if n == 0 then map[] else Top(s).procedures, 0)
  {
    var t := Apply(Enter(id), s);
    var n := |s.frames|;
    if n > 0 {
      FrameFacts(s, n - 1);
      forall x | x in t.frames[n].slots ensures SlotOk(t, n, x) { assert SlotOk(s, n - 1, x); }
    }
    Stored(t, n);
    assert OwnValues(t, t.frames[n]) == map[];
  }

  lemma LeaveCommutes(s: Flat, nextFrame: nat)
    requires FramesOk(s) && IdsOk(s, nextFrame) && s.frames != []
    ensures var t := Apply(Leave, s);
      FramesOk(t) && IdsOk(t, nextFrame) && Abs(t) == ApplyChain(Leave, Abs(s))
  {
    hide ScopeOf;
    var t := Apply(Leave, s);
    forall i: nat | i < |t.frames| ensures FrameOk(t, i) && ScopeOf(t, i) == ScopeOf(s, i) {
      Stored(s, i);
      SameScope(s, t, i);
    }
  }

  lemma TopFrameOk(s: Flat, t: Flat)
    requires FramesOk(s) && s.frames != [] && |t.frames| == |s.frames| && t.variables == s.variables
    requires t.nextVariable == s.nextVariable && t.frames[..|s.frames| - 1] == s.frames[..|s.frames| - 1]
    requires Top(t).slots == Top(s).slots && Top(t).id == Top(s).id
    ensures FramesOk(t)
    ensures forall i: nat :: i < |s.frames| - 1 ==> ScopeOf(t, i) == ScopeOf(s, i)
    ensures ScopeOf(t, |s.frames| - 1) ==
      ScopeOf(s, |s.frames| - 1).(procedures := Top(t).procedures, iteration := Top(t).iteration)
  {
    var n := |s.frames| - 1;
    forall i: nat | i < n ensures FrameOk(t, i) && ScopeOf(t, i) == ScopeOf(s, i) {
      assert t.frames[i] == t.frames[..n][i] && s.frames[i] == s.frames[..n][i];
      if i > 0 { assert t.frames[i - 1] == t.frames[..n][i - 1] && s.frames[i - 1] == s.frames[..n][i - 1]; }
      Stored(s, i);
      SameScope(s, t, i);
    }
    if n > 0 { assert t.frames[n - 1] == t.frames[..n][n - 1] && s.frames[n - 1] == s.frames[..n][n - 1]; }
    FrameFacts(s, n);
    forall x | x in t.frames[n].slots ensures SlotOk(t, n, x) { assert SlotOk(s, n, x); }
    Stored(s, n);
    Stored(t, n);
  }

  lemma TopCommutes(op: Op, s: Flat, nextFrame: nat)
    requires FramesOk(s) && IdsOk(s, nextFrame) && s.frames != [] && (op.SetProcedure? || op.NextIteration?)
    ensures var t := Apply(op, s);
      FramesOk(t) && IdsOk(t, nextFrame) && Abs(t) == ApplyChain(op, Abs(s))
  {
    hide ScopeOf, FramesOk;
    var t := Apply(op, s);
    TopFrameOk(s, t);
    FrameFacts(s, |s.frames| - 1);
    ScopeParts(s, |s.frames| - 1);
  }

  lemma NewVariableBelow(s: Flat, name: char, value: Int32, i: nat)
    requires FramesOk(s) && i < |s.frames| - 1
    ensures var t := Apply(NewVariable(name, value), s);
      FrameOk(s, i) && FrameOk(t, i) && ScopeOf(t, i) == ScopeOf(s, i)
  {
    hide ScopeOf;
    var t := Apply(NewVariable(name, value), s);
    FrameFacts(s, i);
    forall x | x in s.frames[i].slots ensures s.frames[i].slots[x] < s.nextVariable { assert SlotOk(s, i, x); }
    Stored(s, i);
    SameScope(s, t, i);
  }

  lemma NewVariableTop(s: Flat, name: char, value: Int32)
    requires FramesOk(s) && s.frames != []
    ensures var t := Apply(NewVariable(name, value), s); var n := |s.frames| - 1;
      && FrameOk(s, n) && FrameOk(t, n)
      && ScopeOf(t, n) == ScopeOf(s, n).(own := ScopeOf(s, n).own[name := value])
  {
    var t := Apply(NewVariable(name, value), s);
    var n := |s.frames| - 1;
    FrameFacts(s, n);
    forall x | x in t.frames[n].slots ensures SlotOk(t, n, x) {
      if x != name { assert SlotOk(s, n, x); }
    }
    Stored(s, n);
    Stored(t, n);
    NewOwnValue(s, name, value);
  }

  lemma NewOwnValue(s: Flat, name: char, value: Int32)
    requires FramesOk(s) && s.frames != [] && SlotsStored(s, Top(s))
    ensures var t := Apply(NewVariable(name, value), s);
      SlotsStored(t, Top(t)) && OwnValues(t, Top(t)) == OwnValues(s, Top(s))[name := value]
  {
    hide FrameOk, OwnValues;
    OwnAdded(s, Apply(NewVariable(name, value), s), Top(s), s.nextVariable, name, value);
  }

  lemma OwnAdded(s: Flat, t: Flat, f: Frame, n: nat, name: char, value: Int32)
    requires SlotsStored(s, f) && n !in s.variables && t.variables == s.variables[n := Variable(name, f.id, value)]
    ensures var g := f.(slots := f.slots[name := n]);
      SlotsStored(t, g) && OwnValues(t, g) == OwnValues(s, f)[name := value]
  {
    var g := f.(slots := f.slots[name := n]);
    assert OwnValues(t, g) == OwnValues(s, f)[name := value];
  }

  lemma NewVariableScope(s: Flat, name: char, value: Int32)
    requires FramesOk(s) && s.frames != []
    ensures var t := Apply(NewVariable(name, value), s); var n := |s.frames| - 1;
      && FramesOk(t)
      && (forall i: nat :: i < n ==> ScopeOf(t, i) == ScopeOf(s, i))
      && ScopeOf(t, n) == ScopeOf(s, n).(own := ScopeOf(s, n).own[name := value])
  {
    hide ScopeOf, FrameOk;
    NewVariableTop(s, name, value);
    forall i: nat | i < |s.frames| - 1
      ensures FrameOk(Apply(NewVariable(name, value), s), i)
      ensures ScopeOf(Apply(NewVariable(name, value), s), i) == ScopeOf(s, i)
    {
      NewVariableBelow(s, name, value, i);
    }
  }

  lemma NewVariableCommutes(s: Flat, name: char, value: Int32, nextFrame: nat)
    requires FramesOk(s) && IdsOk(s, nextFrame) && s.frames != []
    ensures var t := Apply(NewVariable(name, value), s);
      FramesOk(t) && IdsOk(t, nextFrame) && Abs(t) == ApplyChain(NewVariable(name, value), Abs(s))
  {
    hide ScopeOf, FramesOk;
    NewVariableScope(s, name, value);
  }

  /** The frame that declares what slot x of frame i holds: the nearest one with an own x. */
  lemma {:induction false} Owner(s: Flat, i: nat, x: char) returns (j: nat)
    requires FramesOk(s) && i < |s.frames| && x in s.frames[i].slots
    ensures j <= i && x in s.frames[j].slots && s.frames[j].slots[x] == s.frames[i].slots[x]
    ensures forall k :: j <= k <= i ==> x in s.frames[k].slots && s.frames[k].slots[x] == s.frames[i].slots[x]
    ensures s.frames[j].slots[x] in s.variables && s.variables[s.frames[j].slots[x]].declaredIn == s.frames[j].id
  {
    FrameFacts(s, i);
    assert SlotOk(s, i, x);
    if s.variables[s.frames[i].slots[x]].declaredIn == s.frames[i].id {
      j := i;
    } else {
      j := Owner(s, i - 1, x);
    }
  }

  /** Assigning to the variable in a slot changes the scope of its owner and no other. */
  lemma SetScope(s: Flat, nextFrame: nat, v: nat, value: Int32, i: nat)
    requires FramesOk(s) && IdsOk(s, nextFrame) && v in s.variables && i < |s.frames|
    ensures var t := s.(variables := s.variables[v := s.variables[v].(value := value)]);
      var name := s.variables[v].name;
      && FrameOk(s, i) && FrameOk(t, i)
      && ScopeOf(t, i) == if name in s.frames[i].slots && s.frames[i].slots[name] == v
                             && s.variables[v].declaredIn == s.frames[i].id
                          then ScopeOf(s, i).(own := ScopeOf(s, i).own[name := value]) else ScopeOf(s, i)
  {
    var t := s.(variables := s.variables[v := s.variables[v].(value := value)]);
    FrameFacts(s, i);
    forall x | x in t.frames[i].slots ensures SlotOk(t, i, x) { assert SlotOk(s, i, x); }
    Stored(s, i);
    Stored(t, i);
    var f := s.frames[i];
    var name := s.variables[v].name;
    forall x | x in f.slots && f.slots[x] == v ensures x == name { assert SlotOk(s, i, x); }
    if name in f.slots && f.slots[name] == v && s.variables[v].declaredIn == f.id {
      assert OwnValues(t, f) == OwnValues(s, f)[name := value];
    } else {
      assert OwnValues(t, f) == OwnValues(s, f);
    }
  }

  /** Assigning along the chain changes the scope at `owner`, the last one that has the name. */
  lemma {:induction false} AssignedAt(c: Chain, name: char, value: Int32, owner: nat)
    requires owner < |c| && name in c[owner].own && forall k :: owner < k < |c| ==> name !in c[k].own
    ensures Assigned(c, name, value) == c[owner := c[owner].(own := c[owner].own[name := value])]
    decreases |c|
  {
    if owner < |c| - 1 { AssignedAt(c[..|c| - 1], name, value, owner); }
  }

  lemma OwnBelow(s: Flat, nextFrame: nat, j: nat, k: nat, name: char)
    requires FramesOk(s) && IdsOk(s, nextFrame) && j < k < |s.frames|
    requires name in s.frames[j].slots && s.frames[j].slots[name] in s.variables
    requires s.variables[s.frames[j].slots[name]].declaredIn == s.frames[j].id
    requires name in s.frames[k].slots && s.frames[k].slots[name] == s.frames[j].slots[name]
    ensures FrameOk(s, k) && name !in ScopeOf(s, k).own
  {
    FrameFacts(s, k);
    Stored(s, k);
  }

  lemma SetVariableCommutes(s: Flat, name: char, value: Int32, nextFrame: nat)
    requires FramesOk(s) && IdsOk(s, nextFrame) && Applies(SetVariable(name, value), s)
    ensures var t := Apply(SetVariable(name, value), s);
      FramesOk(t) && IdsOk(t, nextFrame) && Abs(t) == ApplyChain(SetVariable(name, value), Abs(s))
  {
    hide ScopeOf, FramesOk, FrameOk, Assigned;
    var t := Apply(SetVariable(name, value), s);
    var n := |s.frames| - 1;
    var v := Top(s).slots[name];
    SlotName(s, n, name);
    var j := Owner(s, n, name);
    forall i: nat | i <= n ensures FrameOk(t, i) { SetScope(s, nextFrame, v, value, i); }
    SetFrames(s, t);
    var c := Abs(s);
    FrameFacts(s, j);
    OwnHas(s, j, name);
    forall k | j < k <= n ensures name !in c[k].own { OwnBelow(s, nextFrame, j, k, name); }
    AssignedAt(c, name, value, j);
    forall i | 0 <= i <= n ensures Abs(t)[i] == (if i == j then c[j].(own := c[j].own[name := value]) else c[i]) {
      SetScope(s, nextFrame, v, value, i);
      if i != j { assert s.frames[i].id != s.frames[j].id; }
    }
  }

  lemma SlotName(s: Flat, i: nat, x: char)
    requires FramesOk(s) && i < |s.frames| && x in s.frames[i].slots
    ensures s.frames[i].slots[x] in s.variables && s.variables[s.frames[i].slots[x]].name == x
  {
    FrameFacts(s, i);
    assert SlotOk(s, i, x);
  }

  lemma OwnHas(s: Flat, j: nat, name: char)
    requires FramesOk(s) && j < |s.frames| && name in s.frames[j].slots && s.frames[j].slots[name] in s.variables
    requires s.variables[s.frames[j].slots[name]].declaredIn == s.frames[j].id
    ensures FrameOk(s, j) && name in ScopeOf(s, j).own
  {
    FrameFacts(s, j);
    Stored(s, j);
  }

  lemma SetFrames(s: Flat, t: Flat)
    requires FramesOk(s) && t.frames == s.frames && t.nextVariable == s.nextVariable
    requires t.variables.Keys == s.variables.Keys && forall i: nat :: i < |s.frames| ==> FrameOk(t, i)
    ensures FramesOk(t)
  {
  }

  /** A change of the flat frames is the same change of the chain they stand for. */
  lemma OpCommutes(op: Op, s: Flat, nextFrame: nat)
    requires FramesOk(s) && IdsOk(s, nextFrame) && Applies(op, s) && (op.Enter? ==> op.id == nextFrame)
    ensures var t := Apply(op, s);
      && FramesOk(t) && IdsOk(t, if op.Enter? then nextFrame + 1 else nextFrame)
      && AppliesChain(op, Abs(s)) && Abs(t) == ApplyChain(op, Abs(s))
  {
    hide FramesOk, IdsOk, Abs, Apply, ApplyChain;
    AbsLength(s);
    match op
    case Enter(id) => EnterCommutes(s, id);
    case Leave => LeaveCommutes(s, nextFrame);
    case NewVariable(name, value) => NewVariableCommutes(s, name, value, nextFrame);
    case SetVariable(name, value) => SetVariableCommutes(s, name, value, nextFrame);
    case _ => TopCommutes(op, s, nextFrame);
  }

  lemma AbsLength(s: Flat)
    requires FramesOk(s)
    ensures |Abs(s)| == |s.frames|
  {
  }
}
