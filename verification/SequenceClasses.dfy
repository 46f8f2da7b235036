/** What a library of sequences means: the stored strings, and lists of equivalent ones. */
module SequenceClasses {

  /** A class is known by a number, the address of its record. */
  type Class = nat

  datatype Lib = Lib(classOf: map<string, Class>, lists: map<Class, seq<string>>)

  predicate Digit(c: char) {
    '0' <= c <= '2'
  }

  predicate StringValid(s: string) {
    s != [] && forall i :: 0 <= i < |s| ==> Digit(s[i])
  }

  predicate Distinct(l: seq<string>) {
    forall i, j :: 0 <= i < j < |l| ==> l[i] != l[j]
  }

  // ----- what always holds

  predicate StoredOk(lib: Lib, s: string)
    requires s in lib.classOf
  {
    && StringValid(s) && (|s| > 1 ==> s[..|s| - 1] in lib.classOf)
    && lib.classOf[s] in lib.lists && s in lib.lists[lib.classOf[s]]
  }

  predicate ListOk(lib: Lib, c: Class)
    requires c in lib.lists
  {
    && lib.lists[c] != [] && Distinct(lib.lists[c])
    && forall s :: s in lib.lists[c] ==> s in lib.classOf && lib.classOf[s] == c
  }

  /** The strings are closed under prefixes, and every class lists its strings once each. */
  ghost predicate LibOk(lib: Lib) {
    && (forall s :: s in lib.classOf ==> StoredOk(lib, s))
    && (forall c :: c in lib.lists ==> ListOk(lib, c))
  }

  predicate Same(lib: Lib, a: string, b: string) {
    a in lib.classOf && b in lib.classOf && lib.classOf[a] == lib.classOf[b]
  }

  // ----- adding

  predicate Prefix(t: string, s: string) {
    t != [] && t <= s
  }

  function Prefixes(s: string): (r: set<string>)
    ensures forall t :: t in r <==> Prefix(t, s)
  {
    if s == [] then {}
    else
      PrefixStep(s);
      Prefixes(s[..|s| - 1]) + {s}
  }

  lemma PrefixStep(s: string)
    requires s != []
    ensures forall t :: Prefix(t, s) <==> t == s || Prefix(t, s[..|s| - 1])
  {
    forall t: string | Prefix(t, s) && t != s ensures Prefix(t, s[..|s| - 1]) {
      assert t == s[..|t|] == s[..|s| - 1][..|t|];
    }
  }

  function AddOne(lib: Lib, t: string, c: Class): Lib {
    Lib(lib.classOf[t := c], lib.lists[c := [t]])
  }

  predicate Fresh(before: Lib, after: Lib, t: string) {
    t in after.classOf && t !in before.classOf
  }

  /** The missing prefixes of s were added, each alone in a class of its own. */
  ghost predicate Added(before: Lib, after: Lib, s: string) {
    && after.classOf.Keys == before.classOf.Keys + Prefixes(s)
    && (forall t :: t in before.classOf ==> after.classOf[t] == before.classOf[t])
    && (forall c :: c in before.lists ==> c in after.lists && after.lists[c] == before.lists[c])
    && (forall t :: t in after.classOf && t !in before.classOf ==>
          after.classOf[t] !in before.lists && after.classOf[t] in after.lists && after.lists[after.classOf[t]] == [t])
    && (forall c :: c in after.lists && c !in before.lists ==>
          after.lists[c] != [] && Fresh(before, after, after.lists[c][0]) && after.classOf[after.lists[c][0]] == c)
  }

  lemma AddedStored(before: Lib, after: Lib, s: string, t: string)
    requires LibOk(before) && StringValid(s) && Added(before, after, s) && t in after.classOf
    ensures StoredOk(after, t)
  {
    if t in before.classOf {
      assert StoredOk(before, t);
    } else {
      assert Prefix(t, s);
      if |t| > 1 { assert Prefix(t[..|t| - 1], s); }
    }
  }

  lemma AddedListed(before: Lib, after: Lib, s: string, c: Class)
    requires LibOk(before) && Added(before, after, s) && c in after.lists
    ensures ListOk(after, c)
  {
    if c in before.lists { assert ListOk(before, c); }
  }

  /** A library with the missing prefixes of a valid string added is in order. */
  lemma AddedOk(before: Lib, after: Lib, s: string)
    requires LibOk(before) && StringValid(s) && Added(before, after, s)
    ensures LibOk(after)
  {
    hide Added, StoredOk, ListOk;
    forall t | t in after.classOf ensures StoredOk(after, t) { AddedStored(before, after, s, t); }
    forall c | c in after.lists ensures ListOk(after, c) { AddedListed(before, after, s, c); }
  }

  lemma AddedNothing(lib: Lib)
    ensures Added(lib, lib, [])
  {
  }

  lemma AddOneOk(lib: Lib, s: string, c: Class)
    requires LibOk(lib) && StringValid(s) && s !in lib.classOf && c !in lib.lists
    requires |s| > 1 ==> s[..|s| - 1] in lib.classOf
    ensures LibOk(AddOne(lib, s, c))
  {
    hide StringValid;
    var after := AddOne(lib, s, c);
    forall t | t in after.classOf ensures StoredOk(after, t) {
      if t != s { assert StoredOk(lib, t); }
    }
    forall d | d in after.lists ensures ListOk(after, d) {
      if d != c { assert ListOk(lib, d); }
    }
  }

  lemma AddedNew(before: Lib, lib: Lib, s: string, c: Class)
    requires s != [] && Added(before, lib, s[..|s| - 1]) && s !in lib.classOf && c !in lib.lists
    requires forall t :: t in lib.classOf ==> lib.classOf[t] in lib.lists
    ensures Added(before, AddOne(lib, s, c), s)
  {
    var after := AddOne(lib, s, c);
    assert after.classOf.Keys == before.classOf.Keys + Prefixes(s) by { PrefixStep(s); }
    forall d | d in after.lists && d !in before.lists
      ensures after.lists[d] != [] && Fresh(before, after, after.lists[d][0]) && after.classOf[after.lists[d][0]] == d
    {
      if d != c { assert Fresh(before, lib, lib.lists[d][0]); }
    }
  }

  lemma AddedOld(before: Lib, lib: Lib, s: string)
    requires s != [] && Added(before, lib, s[..|s| - 1]) && s in lib.classOf
    ensures Added(before, lib, s)
  {
    PrefixStep(s);
    assert !Prefix(s, s[..|s| - 1]);
    assert lib.classOf.Keys == before.classOf.Keys + Prefixes(s);
  }

  /** One more prefix, which was there already or is new. */
  lemma AddedNext(before: Lib, lib: Lib, s: string, c: Class)
    requires LibOk(lib) && StringValid(s) && Added(before, lib, s[..|s| - 1])
    requires s !in lib.classOf ==> c !in lib.lists
    ensures var after := if s in lib.classOf then lib else AddOne(lib, s, c);
      LibOk(after) && Added(before, after, s)
  {
    hide LibOk, Added, AddOne;
    if s !in lib.classOf {
      AllListed(lib);
      AddedNew(before, lib, s, c);
      if |s| > 1 { AddedHas(before, lib, s[..|s| - 1]); }
      AddOneOk(lib, s, c);
    } else {
      AddedOld(before, lib, s);
    }
  }

  lemma AllListed(lib: Lib)
    requires LibOk(lib)
    ensures forall t :: t in lib.classOf ==> lib.classOf[t] in lib.lists
  {
    forall t | t in lib.classOf ensures lib.classOf[t] in lib.lists { assert StoredOk(lib, t); }
  }

  lemma AddedHas(before: Lib, after: Lib, s: string)
    requires Added(before, after, s) && s != []
    ensures s in after.classOf
  {
    assert Prefix(s, s);
  }

  /** Whatever is stored keeps its company; a new string is equivalent to itself only. */
  lemma AddedSame(before: Lib, after: Lib, s: string, a: string, b: string)
    requires LibOk(before) && LibOk(after) && Added(before, after, s)
    ensures Same(after, a, b) <==> Same(before, a, b) || (a == b && Prefix(a, s))
  {
    if a in before.classOf { assert StoredOk(before, a); }
    if b in before.classOf { assert StoredOk(before, b); }
    if a in after.classOf { assert StoredOk(after, a); }
    if b in after.classOf { assert StoredOk(after, b); }
  }

  // ----- removing

  function Dropped(l: seq<string>, gone: set<string>): (r: seq<string>)
    ensures forall s :: s in r <==> s in l && s !in gone
  {
    if l == [] then []
    else
      var rest := Dropped(l[..|l| - 1], gone);
      if l[|l| - 1] in gone then rest else rest + [l[|l| - 1]]
  }

  /** The library without some strings; the lists keep their order, empty ones go. */
  function Without(lib: Lib, gone: set<string>): Lib {
    Lib(map s | s in lib.classOf && s !in gone :: lib.classOf[s],
        map c | c in lib.lists && Dropped(lib.lists[c], gone) != [] :: Dropped(lib.lists[c], gone))
  }

  lemma {:induction false} DroppedDistinct(l: seq<string>, gone: set<string>)
    requires Distinct(l)
    ensures Distinct(Dropped(l, gone))
  {
    if l != [] {
      var front := l[..|l| - 1];
      DroppedDistinct(front, gone);
      var rest := Dropped(front, gone);
      forall i | 0 <= i < |rest| ensures rest[i] != l[|l| - 1] {
        assert rest[i] in rest;
        var k :| 0 <= k < |front| && front[k] == rest[i];
        assert l[k] == rest[i];
      }
    }
  }

  lemma {:induction false} DroppedNothing(l: seq<string>, gone: set<string>)
    requires forall s :: s in l ==> s !in gone
    ensures Dropped(l, gone) == l
  {
    if l != [] { DroppedNothing(l[..|l| - 1], gone); }
  }

  lemma {:induction false} DroppedTwice(l: seq<string>, a: set<string>, b: set<string>)
    ensures Dropped(Dropped(l, a), b) == Dropped(l, a + b)
  {
    if l != [] {
      DroppedTwice(l[..|l| - 1], a, b);
      var rest := Dropped(l[..|l| - 1], a);
      assert (rest + [l[|l| - 1]])[..|rest|] == rest;
    }
  }

  lemma WithoutTwice(lib: Lib, a: set<string>, b: set<string>)
    ensures Without(Without(lib, a), b) == Without(lib, a + b)
  {
    hide Dropped;
    var twice, both := Without(Without(lib, a), b), Without(lib, a + b);
    assert twice.classOf == both.classOf;
    forall c | c in lib.lists ensures Dropped(Dropped(lib.lists[c], a), b) == Dropped(lib.lists[c], a + b) {
      DroppedTwice(lib.lists[c], a, b);
    }
    DroppedNothing([], b);
    assert twice.lists.Keys == both.lists.Keys;
    assert twice.lists == both.lists;
  }

  /** Taking away whole branches leaves a library in order. */
  lemma WithoutOk(lib: Lib, gone: set<string>)
    requires LibOk(lib)
    requires forall s, t :: s in lib.classOf && t in gone && t <= s ==> s in gone
    ensures LibOk(Without(lib, gone))
  {
    var after := Without(lib, gone);
    forall s | s in after.classOf ensures StoredOk(after, s) {
      assert StoredOk(lib, s);
      if |s| > 1 { assert s[..|s| - 1] <= s; }
      assert s in Dropped(lib.lists[lib.classOf[s]], gone);
    }
    forall c | c in after.lists ensures ListOk(after, c) {
      assert ListOk(lib, c);
      DroppedDistinct(lib.lists[c], gone);
    }
  }

  /** The survivors keep their company. */
  lemma WithoutSame(lib: Lib, gone: set<string>, a: string, b: string)
    ensures Same(Without(lib, gone), a, b) <==> Same(lib, a, b) && a !in gone && b !in gone
  {
  }

  /** The stored strings that begin with s. */
  function Branch(lib: Lib, s: string): set<string> {
    set t | t in lib.classOf && s <= t
  }

  // ----- merging

  /** The class that takes the other one over: the one with the longer list. */
  function Larger(lib: Lib, c1: Class, c2: Class): Class
    requires c1 in lib.lists && c2 in lib.lists
  {
    if |lib.lists[c1]| >= |lib.lists[c2]| then c1 else c2
  }

  function Merged(lib: Lib, large: Class, small: Class): Lib
    requires large in lib.lists && small in lib.lists
  {
    Lib(map s | s in lib.classOf :: if lib.classOf[s] == small then large else lib.classOf[s],
        lib.lists[large := lib.lists[small] + lib.lists[large]] - {small})
  }

  function Equiv(lib: Lib, s1: string, s2: string): Lib
    requires LibOk(lib)
  {
    if s1 !in lib.classOf || s2 !in lib.classOf || lib.classOf[s1] == lib.classOf[s2] then lib
    else
      assert StoredOk(lib, s1) && StoredOk(lib, s2);
      var c1, c2 := lib.classOf[s1], lib.classOf[s2];
      if Larger(lib, c1, c2) == c1 then Merged(lib, c1, c2) else Merged(lib, c2, c1)
  }

  lemma DistinctJoin(a: seq<string>, b: seq<string>)
    requires Distinct(a) && Distinct(b) && forall s :: s in a ==> s !in b
    ensures Distinct(a + b)
  {
    forall i, j | 0 <= i < j < |a + b| ensures (a + b)[i] != (a + b)[j] {
      if i < |a| <= j { assert a[i] in a && b[j - |a|] in b; }
    }
  }

  lemma MergedOk(lib: Lib, large: Class, small: Class)
    requires LibOk(lib) && large in lib.lists && small in lib.lists && large != small
    ensures LibOk(Merged(lib, large, small))
  {
    var after := Merged(lib, large, small);
    assert ListOk(lib, large) && ListOk(lib, small);
    DistinctJoin(lib.lists[small], lib.lists[large]);
    forall s | s in after.classOf ensures StoredOk(after, s) { assert StoredOk(lib, s); }
    forall c | c in after.lists ensures ListOk(after, c) { assert ListOk(lib, c); }
  }

  /** The companions of the two strings become one company; everything else stays. */
  lemma EquivSame(lib: Lib, s1: string, s2: string, a: string, b: string)
    requires LibOk(lib)
    ensures LibOk(Equiv(lib, s1, s2))
    ensures Same(Equiv(lib, s1, s2), a, b) <==>
      || Same(lib, a, b)
      || (Same(lib, a, s1) && Same(lib, s2, b))
      || (Same(lib, a, s2) && Same(lib, s1, b))
  {
    if s1 in lib.classOf && s2 in lib.classOf && lib.classOf[s1] != lib.classOf[s2] {
      assert StoredOk(lib, s1) && StoredOk(lib, s2);
      var c1, c2 := lib.classOf[s1], lib.classOf[s2];
      if Larger(lib, c1, c2) == c1 { MergedOk(lib, c1, c2); } else { MergedOk(lib, c2, c1); }
    }
  }

  // ----- whole histories

  datatype Op = AddOp(s: string) | RemoveOp(s: string) | EquivOp(s1: string, s2: string)

  /** What an operation may make of a library. */
  ghost predicate Does(op: Op, before: Lib, after: Lib)
    requires LibOk(before)
  {
    match op
    case AddOp(s) => if StringValid(s) then Added(before, after, s) else after == before
    case RemoveOp(s) => after == if StringValid(s) then Without(before, Branch(before, s)) else before
    case EquivOp(s1, s2) => after == if StringValid(s1) && StringValid(s2) then Equiv(before, s1, s2) else before
  }

  lemma DoesKeeps(op: Op, before: Lib, after: Lib)
    requires LibOk(before) && Does(op, before, after)
    ensures LibOk(after)
  {
    hide LibOk, Added, Without;
    match op
    case AddOp(s) => if StringValid(s) { AddedOk(before, after, s); }
    case RemoveOp(s) => WithoutOk(before, Branch(before, s));
    case EquivOp(s1, s2) => EquivSame(before, s1, s2, s1, s2);
  }

  /** Which strings a history makes equivalent; a string is stored when it is to itself. */
  ghost predicate Related(history: seq<Op>, a: string, b: string)
    decreases |history|
  {
    history != [] &&
    var h, last := history[..|history| - 1], history[|history| - 1];
    match last
    case AddOp(s) => Related(h, a, b) || (StringValid(s) && a == b && Prefix(a, s))
    case RemoveOp(s) => Related(h, a, b) && !(StringValid(s) && (s <= a || s <= b))
    case EquivOp(s1, s2) =>
      || Related(h, a, b)
      || (StringValid(s1) && StringValid(s2) && Related(h, a, s1) && Related(h, s2, b))
      || (StringValid(s1) && StringValid(s2) && Related(h, a, s2) && Related(h, s1, b))
  }

  ghost predicate History(libs: seq<Lib>, history: seq<Op>) {
    && |libs| == |history| + 1 && libs[0] == Lib(map[], map[])
    && forall k :: 0 <= k < |history| && LibOk(libs[k]) ==> Does(history[k], libs[k], libs[k + 1])
  }

  lemma {:induction false} HistoryOk(libs: seq<Lib>, history: seq<Op>, k: nat)
    requires History(libs, history) && k <= |history|
    ensures LibOk(libs[k])
  {
    if k > 0 {
      HistoryOk(libs, history, k - 1);
      assert Does(history[k - 1], libs[k - 1], libs[k - 1 + 1]);
      DoesKeeps(history[k - 1], libs[k - 1], libs[k]);
    }
  }

  /** After any history, two strings share a record exactly when the history relates them. */
  lemma {:induction false} SameIsRelated(libs: seq<Lib>, history: seq<Op>, k: nat)
    requires History(libs, history) && k <= |history|
    ensures forall a, b :: Same(libs[k], a, b) <==> Related(history[..k], a, b)
  {
    if k > 0 {
      var before, after, op := libs[k - 1], libs[k], history[k - 1];
      SameIsRelated(libs, history, k - 1);
      HistoryOk(libs, history, k - 1);
      HistoryOk(libs, history, k);
      assert Does(op, before, libs[k - 1 + 1]);
      assert history[..k][..k - 1] == history[..k - 1] && history[..k][k - 1] == op;
      forall a, b ensures Same(after, a, b) <==> Related(history[..k], a, b) {
        StepSame(op, before, after, history[..k], a, b);
      }
    }
  }

  lemma StepSame(op: Op, before: Lib, after: Lib, history: seq<Op>, a: string, b: string)
    requires LibOk(before) && LibOk(after) && Does(op, before, after)
    requires history != [] && history[|history| - 1] == op
    requires forall x, y :: Same(before, x, y) <==> Related(history[..|history| - 1], x, y)
    ensures Same(after, a, b) <==> Related(history, a, b)
  {
    hide LibOk, Added, Equiv, Without;
    match op
    case AddOp(s) => if StringValid(s) { AddedSame(before, after, s, a, b); }
    case RemoveOp(s) => if StringValid(s) { WithoutSame(before, Branch(before, s), a, b); }
    case EquivOp(s1, s2) => if StringValid(s1) && StringValid(s2) { EquivSame(before, s1, s2, a, b); }
  }

  // ----- the cost of merging

  function PowerOfTwo(n: nat): nat {
    if n == 0 then 1 else 2 * PowerOfTwo(n - 1)
  }

  /** A string that was given another record n times is in a class of at least 2^n strings. */
  ghost predicate Doubling(lib: Lib, moved: map<string, nat>) {
    forall s :: s in lib.classOf ==>
      s in moved && lib.classOf[s] in lib.lists && PowerOfTwo(moved[s]) <= |lib.lists[lib.classOf[s]]|
  }

  /** The counts after an operation: the strings of the class taken over have moved once more. */
  ghost function MovedOn(before: Lib, after: Lib, moved: map<string, nat>): map<string, nat> {
    map s | s in after.classOf ::
      if s in before.classOf && s in moved then (if after.classOf[s] == before.classOf[s] then moved[s] else moved[s] + 1) else 0
  }

  /** Without removals, every relabelling at least doubles the class of the string. */
  lemma GrowthDoubles(op: Op, before: Lib, after: Lib, moved: map<string, nat>)
    requires LibOk(before) && Does(op, before, after) && !op.RemoveOp? && Doubling(before, moved)
    ensures Doubling(after, MovedOn(before, after, moved))
  {
    DoesKeeps(op, before, after);
    match op
    case AddOp(s) => AddDoubles(s, before, after, moved);
    case EquivOp(s1, s2) => EquivDoubles(s1, s2, before, moved);
  }

  lemma AddDoubles(s: string, before: Lib, after: Lib, moved: map<string, nat>)
    requires LibOk(before) && LibOk(after) && Does(AddOp(s), before, after) && Doubling(before, moved)
    ensures Doubling(after, MovedOn(before, after, moved))
  {
    var counts := MovedOn(before, after, moved);
    forall t | t in after.classOf
      ensures t in counts && after.classOf[t] in after.lists && PowerOfTwo(counts[t]) <= |after.lists[after.classOf[t]]|
    {
      assert StoredOk(after, t);
      if t in before.classOf { assert StoredOk(before, t); }
    }
  }

  lemma EquivDoubles(s1: string, s2: string, before: Lib, moved: map<string, nat>)
    requires LibOk(before) && Doubling(before, moved)
    ensures var after := Equiv(before, s1, s2); Doubling(after, MovedOn(before, after, moved))
  {
    hide Doubling, MovedOn;
    if s1 in before.classOf && s2 in before.classOf && before.classOf[s1] != before.classOf[s2] {
      assert StoredOk(before, s1) && StoredOk(before, s2);
      var c1, c2 := before.classOf[s1], before.classOf[s2];
      if Larger(before, c1, c2) == c1 { MergedDoubles(before, c1, c2, moved); } else { MergedDoubles(before, c2, c1, moved); }
    } else {
      NothingMoved(before, moved);
    }
  }

  lemma NothingMoved(lib: Lib, moved: map<string, nat>)
    requires Doubling(lib, moved)
    ensures Doubling(lib, MovedOn(lib, lib, moved))
  {
  }

  lemma MergedDoubles(lib: Lib, large: Class, small: Class, moved: map<string, nat>)
    requires LibOk(lib) && Doubling(lib, moved) && large in lib.lists && small in lib.lists && large != small
    requires |lib.lists[large]| >= |lib.lists[small]|
    ensures var after := Merged(lib, large, small); Doubling(after, MovedOn(lib, after, moved))
  {
    hide LibOk;
    var after := Merged(lib, large, small);
    var counts := MovedOn(lib, after, moved);
    forall t | t in after.classOf
      ensures t in counts && after.classOf[t] in after.lists && PowerOfTwo(counts[t]) <= |after.lists[after.classOf[t]]|
    {
      assert t in moved && lib.classOf[t] in lib.lists && PowerOfTwo(moved[t]) <= |lib.lists[lib.classOf[t]]|;
    }
  }

  /** How often s has been given another record since it was stored. */
  ghost function Moves(libs: seq<Lib>, s: string, k: nat): nat
    requires k < |libs|
  {
    if k == 0 || s !in libs[k - 1].classOf || s !in libs[k].classOf then 0
    else Moves(libs, s, k - 1) + if libs[k - 1].classOf[s] != libs[k].classOf[s] then 1 else 0
  }

  ghost function AllMoves(libs: seq<Lib>, k: nat): map<string, nat>
    requires k < |libs|
  {
    map s | s in libs[k].classOf :: Moves(libs, s, k)
  }

  lemma {:induction false} HistoryDoubles(libs: seq<Lib>, history: seq<Op>, k: nat)
    requires History(libs, history) && k <= |history| && forall j :: 0 <= j < k ==> !history[j].RemoveOp?
    ensures Doubling(libs[k], AllMoves(libs, k))
  {
    hide Doubling, Does, LibOk;
    if k == 0 {
      EmptyDoubles(libs);
    } else {
      HistoryOk(libs, history, k - 1);
      HistoryDoubles(libs, history, k - 1);
      assert Does(history[k - 1], libs[k - 1], libs[k - 1 + 1]);
      GrowthDoubles(history[k - 1], libs[k - 1], libs[k], AllMoves(libs, k - 1));
      assert MovedOn(libs[k - 1], libs[k], AllMoves(libs, k - 1)) == AllMoves(libs, k);
    }
  }

  lemma EmptyDoubles(libs: seq<Lib>)
    requires libs != [] && libs[0] == Lib(map[], map[])
    ensures Doubling(libs[0], AllMoves(libs, 0))
  {
  }

  lemma {:induction false} DistinctSize(l: seq<string>, keys: set<string>)
    requires Distinct(l) && forall s :: s in l ==> s in keys
    ensures |l| <= |keys|
  {
    if l != [] {
      var front, last := l[..|l| - 1], l[|l| - 1];
      forall s | s in front ensures s in keys - {last} {}
      DistinctSize(front, keys - {last});
    }
  }

  /** In a history without removals no stored string is relabelled more often than the logarithm,
      to the base 2, of the number of stored strings. */
  lemma MovesLogarithmic(libs: seq<Lib>, history: seq<Op>, k: nat, s: string)
    requires History(libs, history) && k <= |history| && forall j :: 0 <= j < k ==> !history[j].RemoveOp?
    requires s in libs[k].classOf
    ensures PowerOfTwo(Moves(libs, s, k)) <= |libs[k].classOf|
  {
    hide Does;
    HistoryOk(libs, history, k);
    HistoryDoubles(libs, history, k);
    var c := libs[k].classOf[s];
    assert StoredOk(libs[k], s) && ListOk(libs[k], c);
    DistinctSize(libs[k].lists[c], libs[k].classOf.Keys);
    assert AllMoves(libs, k)[s] == Moves(libs, s, k);
  }
}
