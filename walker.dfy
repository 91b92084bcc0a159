/**
 * The walk of `recursiveLook` over a decoded JSON document, in both of its
 * passes. The walk threads a state through the document in order: the
 * placeholder list, the list of extracted runs, the results once they exist,
 * and the number of splitters made so far (each takes a fresh key).
 * Pass one (no results yet) splits every eligible leaf; pass two (results
 * present) replaces the placeholders in every eligible leaf. A leaf is
 * eligible when the loop over its parent passes `isLast` true for it.
 */
module Walker {
  import opened Wrappers
  import opened PyStr
  import opened Splitter
  import opened Reinsert

  /** The key whose entry is never treated as its object's last one. */
  const Sentinel := "mmmsss"

  /** A decoded JSON value: an object (its keys in order, with their values), an array, a string, or another scalar. */
  datatype Tree =
    | Dict(keys: seq<string>, vals: seq<Tree>)
    | List(items: seq<Tree>)
    | Str(s: string)
    | Scalar(literal: string)

  predicate IsContainer(t: Tree) {
    t.Dict? || t.List?
  }

  function Kids(t: Tree): seq<Tree> {
    match t
    case Dict(_, vals) => vals
    case List(items) => items
    case _ => []
  }

  /** The `isLast` the loop over `t` passes to its `j`-th child. */
  function FlagAt(t: Tree, j: nat): bool {
    match t
    case Dict(keys, _) => j < |keys| && keys[j] == keys[|keys| - 1] && keys[j] != Sentinel
    case List(items) => j == |items| - 1
    case _ => false
  }

  function Flags(t: Tree): (f: seq<bool>)
    ensures |f| == |Kids(t)|
  {
    seq(|Kids(t)|, (j: int) requires 0 <= j < |Kids(t)| => FlagAt(t, j))
  }

  /** The container `t` with its children replaced. */
  function WithKids(t: Tree, ks: seq<Tree>): Tree
    requires IsContainer(t)
  {
    if t.Dict? then Dict(t.keys, ks) else List(ks)
  }

  /** A value a JSON decoder can produce: one value per key, and no key twice in an object. */
  ghost predicate WellFormed(t: Tree)
    decreases t
  {
    match t
    case Dict(keys, vals) =>
      |keys| == |vals| && Distinct(keys) && forall j :: 0 <= j < |vals| ==> WellFormed(vals[j])
    case List(items) => forall j :: 0 <= j < |items| ==> WellFormed(items[j])
    case _ => true
  }

  /** Every leaf the walk reaches with `isLast` true is a string: the splitter cannot be fed anything else. */
  ghost predicate LeavesOk(t: Tree, flag: bool)
    decreases t
  {
    if IsContainer(t) then forall j :: 0 <= j < |Kids(t)| ==> LeavesOk(Kids(t)[j], Flags(t)[j])
    else flag ==> t.Str?
  }

  /**
   * What the walk is given from outside: the library tokenizer (the events
   * `feed` delivers for a string), the numeric test on attribute values, and
   * the key the `k`-th splitter draws.
   */
  datatype Env = Env(tokenize: string -> seq<Event>, isFloat: string -> bool, uuids: nat -> string)

  /** The entries of the walk's shared dictionary besides the current value, and the splitters made so far. */
  datatype State = State(ids: seq<string>, frags: seq<string>, results: Option<seq<string>>, made: nat)

  /** In pass two there is a result for every placeholder, as the indexing of the result list demands. */
  predicate ResultsCover(st: State) {
    st.results.Some? ==> |st.ids| <= |st.results.value|
  }

  /** An eligible string leaf: split by a fresh splitter in pass one, placeholders replaced in pass two. */
  function LeafStep(env: Env, s: string, st: State): (Tree, State)
    requires ResultsCover(st)
  {
    match st.results
    case Some(res) => (Str(ReplaceSeq(s, st.ids, res)), st)
    case None =>
      var key := env.uuids(st.made);
      var evs := env.tokenize(s);
      var ps := Pieces(evs, env.isFloat);
      (Str(Skeleton(evs, key, env.isFloat)),
       State(st.ids + LocalIds(key, Slots(ps)), st.frags + HoleTexts(ps), None, st.made + 1))
  }

  /** The walk of one value reached with `isLast` equal to `flag`: the new value and the new state. */
  function Look(env: Env, t: Tree, flag: bool, st: State): (r: (Tree, State))
    requires ResultsCover(st)
    ensures r.1.results == st.results && (st.results.Some? ==> r.1 == st)
    decreases t
  {
    if IsContainer(t) then
      var (ks, st') := LookKids(env, Kids(t), Flags(t), st);
      (WithKids(t, ks), st')
    else if flag && t.Str? then LeafStep(env, t.s, st)
    else (t, st)
  }

  /** The walk of a container's children in order, each with its own `isLast`. */
  function LookKids(env: Env, ks: seq<Tree>, flags: seq<bool>, st: State): (r: (seq<Tree>, State))
    requires |flags| == |ks| && ResultsCover(st)
    ensures |r.0| == |ks| && r.1.results == st.results && (st.results.Some? ==> r.1 == st)
    decreases ks
  {
    if ks == [] then ([], st)
    else
      var n := |ks| - 1;
      var (done, s1) := LookKids(env, ks[..n], flags[..n], st);
      var (c, s2) := Look(env, ks[n], flags[n], s1);
      (done + [c], s2)
  }

  lemma LookKidsStep(env: Env, ks: seq<Tree>, flags: seq<bool>, st: State, i: nat)
    requires |flags| == |ks| && i < |ks| && ResultsCover(st)
    ensures var (done, s1) := LookKids(env, ks[..i], flags[..i], st);
            var (c, s2) := Look(env, ks[i], flags[i], s1);
            LookKids(env, ks[..i + 1], flags[..i + 1], st) == (done + [c], s2)
  {
    assert ks[..i + 1][..i] == ks[..i] && flags[..i + 1][..i] == flags[..i];
  }

  /** Before the walk of child `i`: what the recursive call demands holds for it. */
  lemma KidReady(env: Env, t: Tree, i: nat, st0: State, st: State)
    requires IsContainer(t) && WellFormed(t) && i < |Kids(t)| && ResultsCover(st0)
    requires LeavesOk(t, false) || (st0.results.Some? && st0.ids == [])
    requires st == LookKids(env, Kids(t)[..i], Flags(t)[..i], st0).1
    ensures WellFormed(Kids(t)[i]) && ResultsCover(st)
    ensures LeavesOk(Kids(t)[i], Flags(t)[i]) || (st.results.Some? && st.ids == [])
    ensures Flags(t)[i] == if t.Dict? then t.keys[i] == t.keys[|t.keys| - 1] && t.keys[i] != Sentinel
                           else i == |t.items| - 1
  {
  }

  /** After the walk of child `i`: the loop's view of the children and the state advance by one. */
  lemma KidDone(env: Env, t: Tree, i: nat, st0: State, done: seq<Tree>, s1: State,
                obj: seq<Tree>, c: Tree, s2: State)
    requires IsContainer(t) && i < |Kids(t)| && ResultsCover(st0) && |done| == i
    requires obj == done + Kids(t)[i..]
    requires (done, s1) == LookKids(env, Kids(t)[..i], Flags(t)[..i], st0)
    requires ResultsCover(s1) && (c, s2) == Look(env, obj[i], Flags(t)[i], s1)
    ensures obj[i := c] == (done + [c]) + Kids(t)[i + 1..]
    ensures (done + [c], s2) == LookKids(env, Kids(t)[..i + 1], Flags(t)[..i + 1], st0)
  {
    LookKidsStep(env, Kids(t), Flags(t), st0, i);
    assert obj[i] == Kids(t)[i];
  }

  /** After the last child: the loop has computed the container's walk. */
  lemma KidsDone(env: Env, t: Tree, st0: State, done: seq<Tree>, st: State)
    requires IsContainer(t) && ResultsCover(st0)
    requires (done, st) == LookKids(env, Kids(t)[..|Kids(t)|], Flags(t)[..|Kids(t)|], st0)
    ensures (WithKids(t, done + Kids(t)[|Kids(t)|..]), st) == Look(env, t, false, st0)
  {
    assert Kids(t)[..|Kids(t)|] == Kids(t) && Flags(t)[..|Kids(t)|] == Flags(t);
    assert done + Kids(t)[|Kids(t)|..] == done;
  }

  /**
   * `recursiveLook`: the shared dictionary is the session; the current value
   * is passed in and the new one returned, as `recursiveLook`'s `data['obj']`.
   */
  class Session {
    var ids: seq<string>
    var frags: seq<string>
    var results: Option<seq<string>>
    var made: nat
    const env: Env

    function Current(): State
      reads this
    {
      State(ids, frags, results, made)
    }

    constructor (env: Env)
      ensures Current() == State([], [], None, 0) && this.env == env
    {
      ids := [];
      frags := [];
      results := None;
      made := 0;
      this.env := env;
    }

    method RecursiveLook(t: Tree, isLast: bool) returns (r: Tree)
      requires WellFormed(t) && ResultsCover(Current())
      requires LeavesOk(t, isLast) || (results.Some? && ids == [])
      modifies this
      ensures (r, Current()) == Look(env, t, isLast, old(Current()))
      decreases t, 1
    {
      if t.Dict? {
        r := LookDict(t);
      } else if t.List? {
        r := LookList(t);
      } else if isLast && t.Str? {
        r := LookLeaf(t.s);
      } else {
        r := t;
      }
    }

    /** The object branch: each entry in key order, the last key (unless it is the sentinel) marked. */
    method LookDict(t: Tree) returns (r: Tree)
      requires t.Dict? && WellFormed(t) && ResultsCover(Current())
      requires LeavesOk(t, false) || (results.Some? && ids == [])
      modifies this
      ensures (r, Current()) == Look(env, t, false, old(Current()))
      decreases t, 0
    {
      var keys, obj := t.keys, t.vals;
      ghost var st0 := Current();
      ghost var done: seq<Tree> := [];
      for i := 0 to |obj|
        invariant |obj| == |t.vals| && |done| == i
        invariant obj == done + t.vals[i..]
        invariant (done, Current()) == LookKids(env, t.vals[..i], Flags(t)[..i], st0)
      {
        var key := keys[i];
        var isLast := key == keys[|keys| - 1];
        if key == Sentinel {
          isLast := false;
        }
        assert isLast == FlagAt(t, i);
        KidReady(env, t, i, st0, Current());
        ghost var s1 := Current();
        var result := RecursiveLook(obj[i], isLast);
        KidDone(env, t, i, st0, done, s1, obj, result, Current());
        done := done + [result];
        obj := obj[i := result];
      }
      KidsDone(env, t, st0, done, Current());
      r := Dict(keys, obj);
    }

    /** The array branch: each item in order, the last one marked. */
    method LookList(t: Tree) returns (r: Tree)
      requires t.List? && WellFormed(t) && ResultsCover(Current())
      requires LeavesOk(t, false) || (results.Some? && ids == [])
      modifies this
      ensures (r, Current()) == Look(env, t, false, old(Current()))
      decreases t, 0
    {
      var obj := t.items;
      ghost var st0 := Current();
      ghost var done: seq<Tree> := [];
      for i := 0 to |obj|
        invariant |obj| == |t.items| && |done| == i
        invariant obj == done + t.items[i..]
        invariant (done, Current()) == LookKids(env, t.items[..i], Flags(t)[..i], st0)
      {
        var isLast := i == |obj| - 1;
        KidReady(env, t, i, st0, Current());
        ghost var s1 := Current();
        var result := RecursiveLook(obj[i], isLast);
        KidDone(env, t, i, st0, done, s1, obj, result, Current());
        done := done + [result];
        obj := obj[i := result];
      }
      KidsDone(env, t, st0, done, Current());
      r := List(obj);
    }

    /** A string reached with `isLast` true: the placeholders replaced if results exist, split otherwise. */
    method LookLeaf(s: string) returns (r: Tree)
      requires ResultsCover(Current())
      modifies this
      ensures (r, Current()) == LeafStep(env, s, old(Current()))
    {
      if results.Some? {
        var v := ReplaceIdentifiers(s, ids, results.value);
        r := Str(v);
      } else {
        var parser := new Parser(env.uuids(made), env.isFloat);
        parser.Feed(env.tokenize(s));
        ghost var ps := Pieces(env.tokenize(s), env.isFloat);
        assert parser.nerIdentifierList == LocalIds(env.uuids(made), Slots(ps));
        assert parser.data == Skeleton(env.tokenize(s), env.uuids(made), env.isFloat);
        assert parser.nerDataList == HoleTexts(ps);
        r := Str(parser.data);
        ids := ids + parser.nerIdentifierList;
        frags := frags + parser.nerDataList;
        made := made + 1;
      }
    }
  }

  /** The strings the walk hands to the splitter or to the replacement, in document order. */
  function Leaves(t: Tree, flag: bool): seq<string>
    decreases t
  {
    if IsContainer(t) then LeavesKids(Kids(t), Flags(t))
    else if flag && t.Str? then [t.s]
    else []
  }

  function LeavesKids(ks: seq<Tree>, flags: seq<bool>): seq<string>
    requires |flags| == |ks|
    decreases ks
  {
    if ks == [] then []
    else LeavesKids(ks[..|ks| - 1], flags[..|ks| - 1]) + Leaves(ks[|ks| - 1], flags[|ks| - 1])
  }

  /**
   * `u` is `t` with, at most, its eligible strings changed into other strings:
   * the same containers, keys and lengths, and every other leaf untouched.
   */
  ghost predicate SameShape(t: Tree, u: Tree, flag: bool)
    decreases t
  {
    if IsContainer(t) then
      (t.Dict? ==> u.Dict? && u.keys == t.keys) && (t.List? ==> u.List?)
      && |Kids(u)| == |Kids(t)|
      && forall j :: 0 <= j < |Kids(t)| ==> SameShape(Kids(t)[j], Kids(u)[j], Flags(t)[j])
    else if flag && t.Str? then u.Str?
    else u == t
  }

  /** In a well-formed object the flag marks exactly the last entry, unless its key is the sentinel; in an array, the last item. */
  lemma FlagIsLast(t: Tree, j: nat)
    requires IsContainer(t) && WellFormed(t) && j < |Kids(t)|
    ensures FlagAt(t, j) <==> j == |Kids(t)| - 1 && (t.Dict? ==> t.keys[j] != Sentinel)
  {
    if t.Dict? && j < |t.keys| - 1 {
      assert t.keys[j] != t.keys[|t.keys| - 1];
    }
  }

  lemma FlagsKept(t: Tree, u: Tree)
    requires IsContainer(t) && (t.Dict? ==> u.Dict? && u.keys == t.keys) && (t.List? ==> u.List?)
    requires |Kids(u)| == |Kids(t)|
    ensures Flags(u) == Flags(t)
  {
    assert forall j :: 0 <= j < |Kids(t)| ==> Flags(u)[j] == FlagAt(u, j) == FlagAt(t, j) == Flags(t)[j];
  }

  /** Changing only eligible strings into strings keeps the value well-formed and its eligible leaves strings. */
  lemma {:induction false} ShapeKeeps(t: Tree, u: Tree, flag: bool)
    requires SameShape(t, u, flag)
    ensures WellFormed(t) ==> WellFormed(u)
    ensures LeavesOk(t, flag) ==> LeavesOk(u, flag)
    decreases t
  {
    if IsContainer(t) {
      FlagsKept(t, u);
      forall j | 0 <= j < |Kids(t)|
        ensures WellFormed(Kids(t)[j]) ==> WellFormed(Kids(u)[j])
        ensures LeavesOk(Kids(t)[j], Flags(t)[j]) ==> LeavesOk(Kids(u)[j], Flags(u)[j])
      {
        ShapeKeeps(Kids(t)[j], Kids(u)[j], Flags(t)[j]);
      }
    }
  }

  lemma {:induction false} ShapeTrans(t: Tree, u: Tree, w: Tree, flag: bool)
    requires SameShape(t, u, flag) && SameShape(u, w, flag)
    ensures SameShape(t, w, flag)
    decreases t
  {
    if IsContainer(t) {
      FlagsKept(t, u);
      forall j | 0 <= j < |Kids(t)| ensures SameShape(Kids(t)[j], Kids(w)[j], Flags(t)[j]) {
        ShapeTrans(Kids(t)[j], Kids(u)[j], Kids(w)[j], Flags(t)[j]);
      }
    }
  }

  /** What splitting a list of leaves yields: their skeletons, and the placeholders and runs of all of them, in order. */
  datatype Collected = Collected(skeletons: seq<string>, ids: seq<string>, frags: seq<string>)

  function Join(a: Collected, b: Collected): Collected {
    Collected(a.skeletons + b.skeletons, a.ids + b.ids, a.frags + b.frags)
  }

  /** The pieces of one leaf. */
  function LeafPieces(env: Env, s: string): seq<Piece> {
    Pieces(env.tokenize(s), env.isFloat)
  }

  /** What splitting leaf `s` with splitter number `m` contributes. */
  function Block(env: Env, s: string, m: nat): (c: Collected)
    ensures |c.skeletons| == 1 && |c.ids| == |c.frags|
  {
    var key := env.uuids(m);
    var ps := LeafPieces(env, s);
    Collected([Skeleton(env.tokenize(s), key, env.isFloat)], LocalIds(key, Slots(ps)), HoleTexts(ps))
  }

  /** The splitter applied to a leaf and its number. */
  function Splits(env: Env): (string, nat) -> Collected {
    (s: string, m: nat) => Block(env, s, m)
  }

  /** Splitting leaves one after the other, the `k`-th with splitter number `made + k`. */
  function Collect(split: (string, nat) -> Collected, ls: seq<string>, made: nat): Collected {
    if ls == [] then Collected([], [], [])
    else Join(Collect(split, ls[..|ls| - 1], made), split(ls[|ls| - 1], made + |ls| - 1))
  }

  lemma JoinAssoc(x: Collected, y: Collected, z: Collected)
    ensures Join(Join(x, y), z) == Join(x, Join(y, z))
  {
    assert x.skeletons + y.skeletons + z.skeletons == x.skeletons + (y.skeletons + z.skeletons);
    assert x.ids + y.ids + z.ids == x.ids + (y.ids + z.ids);
    assert x.frags + y.frags + z.frags == x.frags + (y.frags + z.frags);
  }

  lemma CollectSnoc(split: (string, nat) -> Collected, ls: seq<string>, s: string, made: nat)
    ensures Collect(split, ls + [s], made) == Join(Collect(split, ls, made), split(s, made + |ls|))
  {
    var l := ls + [s];
    assert l[..|l| - 1] == ls && l[|l| - 1] == s;
  }

  lemma {:induction false} CollectAppend(split: (string, nat) -> Collected, a: seq<string>, b: seq<string>, made: nat)
    ensures Collect(split, a + b, made) == Join(Collect(split, a, made), Collect(split, b, made + |a|))
    decreases |b|
  {
    if b == [] {
      assert a + b == a;
      assert Join(Collect(split, a, made), Collected([], [], [])) == Collect(split, a, made);
    } else {
      var n := |b| - 1;
      var pre, s := b[..n], b[n];
      assert b == pre + [s] && a + b == (a + pre) + [s];
      CollectSnoc(split, a + pre, s, made);
      CollectSnoc(split, pre, s, made + |a|);
      CollectAppend(split, a, pre, made);
      JoinAssoc(Collect(split, a, made), Collect(split, pre, made + |a|), split(s, made + |a| + n));
    }
  }

  /** The children keep their shapes one by one when the last one does and the others did. */
  lemma ShapesSnoc(ks: seq<Tree>, flags: seq<bool>, done: seq<Tree>, c: Tree)
    requires |flags| == |ks| > 0 && |done| == |ks| - 1
    requires forall j :: 0 <= j < |done| ==> SameShape(ks[..|done|][j], done[j], flags[..|done|][j])
    requires SameShape(ks[|done|], c, flags[|done|])
    ensures forall j :: 0 <= j < |ks| ==> SameShape(ks[j], (done + [c])[j], flags[j])
  {
    var n := |done|;
    forall j | 0 <= j < |ks| ensures SameShape(ks[j], (done + [c])[j], flags[j]) {
      if j < n {
        assert ks[..n][j] == ks[j] && flags[..n][j] == flags[j] && (done + [c])[j] == done[j];
      }
    }
  }

  /** `s1` is `st` after `n` more splitters that contributed `c`. */
  ghost predicate Gained(st: State, s1: State, c: Collected, n: nat) {
    s1.ids == st.ids + c.ids && s1.frags == st.frags + c.frags && s1.results.None? && s1.made == st.made + n
  }

  lemma GainedCompose(st: State, s1: State, s2: State, x: Collected, y: Collected, n1: nat, n2: nat)
    requires Gained(st, s1, x, n1) && Gained(s1, s2, y, n2)
    ensures Gained(st, s2, Join(x, y), n1 + n2)
  {
    assert st.ids + x.ids + y.ids == st.ids + (x.ids + y.ids);
    assert st.frags + x.frags + y.frags == st.frags + (x.frags + y.frags);
  }

  /** Two stretches of pass one, one after the other, make one stretch over both lists of leaves. */
  lemma CollectBoth(split: (string, nat) -> Collected, st: State, s1: State, s2: State, m0: nat, m1: nat,
                    la: seq<string>, lb: seq<string>, ka: seq<string>, kb: seq<string>)
    requires m1 == m0 + |la|
    requires Gained(st, s1, Collect(split, la, m0), |la|) && Gained(s1, s2, Collect(split, lb, m1), |lb|)
    requires ka == Collect(split, la, m0).skeletons && kb == Collect(split, lb, m1).skeletons
    ensures Gained(st, s2, Collect(split, la + lb, m0), |la + lb|)
    ensures ka + kb == Collect(split, la + lb, m0).skeletons
  {
    CollectAppend(split, la, lb, m0);
    GainedCompose(st, s1, s2, Collect(split, la, m0), Collect(split, lb, m1), |la|, |lb|);
  }

  /**
   * Pass one: the state gains the placeholders and runs of the eligible
   * leaves in document order, one splitter per leaf; the eligible leaves
   * become their skeletons and nothing else changes.
   */
  lemma {:induction false} Pass1(env: Env, t: Tree, flag: bool, st: State)
    requires st.results.None?
    ensures Gained(st, Look(env, t, flag, st).1, Collect(Splits(env), Leaves(t, flag), st.made), |Leaves(t, flag)|)
    ensures Leaves(Look(env, t, flag, st).0, flag) == Collect(Splits(env), Leaves(t, flag), st.made).skeletons
    ensures SameShape(t, Look(env, t, flag, st).0, flag)
    decreases t
  {
    if IsContainer(t) {
      Pass1Kids(env, Kids(t), Flags(t), st);
      var u := Look(env, t, flag, st).0;
      assert Kids(u) == LookKids(env, Kids(t), Flags(t), st).0;
      FlagsKept(t, u);
    } else if flag && t.Str? {
      assert [t.s][..0] == [];
      assert Collect(Splits(env), [t.s], st.made) == Join(Collected([], [], []), Block(env, t.s, st.made));
    } else {
      assert Leaves(t, flag) == [];
    }
  }

  lemma {:induction false} Pass1Kids(env: Env, ks: seq<Tree>, flags: seq<bool>, st: State)
    requires |flags| == |ks| && st.results.None?
    ensures Gained(st, LookKids(env, ks, flags, st).1, Collect(Splits(env), LeavesKids(ks, flags), st.made), |LeavesKids(ks, flags)|)
    ensures LeavesKids(LookKids(env, ks, flags, st).0, flags) == Collect(Splits(env), LeavesKids(ks, flags), st.made).skeletons
    ensures forall j :: 0 <= j < |ks| ==> SameShape(ks[j], LookKids(env, ks, flags, st).0[j], flags[j])
    decreases ks
  {
    if ks == [] {
      assert LeavesKids(ks, flags) == [];
    } else {
      var n := |ks| - 1;
      var pre, fpre := ks[..n], flags[..n];
      Pass1Kids(env, pre, fpre, st);
      var (done, s1) := LookKids(env, pre, fpre, st);
      Pass1(env, ks[n], flags[n], s1);
      var (c, s2) := Look(env, ks[n], flags[n], s1);
      var out := done + [c];
      assert LookKids(env, ks, flags, st) == (out, s2);
      var la, lb := LeavesKids(pre, fpre), Leaves(ks[n], flags[n]);
      assert LeavesKids(ks, flags) == la + lb;
      assert out[..n] == done && out[n] == c;
      assert LeavesKids(out, flags) == LeavesKids(done, fpre) + Leaves(c, flags[n]);
      CollectBoth(Splits(env), st, s1, s2, st.made, s1.made, la, lb, LeavesKids(done, fpre), Leaves(c, flags[n]));
      ShapesSnoc(ks, flags, done, c);
    }
  }

  /** Pass two on each eligible leaf: every placeholder replaced by its result, in list order. */
  function ReplaceEach(ls: seq<string>, ids: seq<string>, res: seq<string>): (r: seq<string>)
    requires |ids| <= |res|
    ensures |r| == |ls| && forall k :: 0 <= k < |ls| ==> r[k] == ReplaceSeq(ls[k], ids, res)
  {
    if ls == [] then [] else ReplaceEach(ls[..|ls| - 1], ids, res) + [ReplaceSeq(ls[|ls| - 1], ids, res)]
  }

  /** Pass two: the eligible leaves have their placeholders replaced, and nothing else changes (the state neither). */
  lemma {:induction false} Pass2(env: Env, t: Tree, flag: bool, st: State)
    requires st.results.Some? && ResultsCover(st)
    ensures Leaves(Look(env, t, flag, st).0, flag) == ReplaceEach(Leaves(t, flag), st.ids, st.results.value)
    ensures SameShape(t, Look(env, t, flag, st).0, flag)
    decreases t
  {
    if IsContainer(t) {
      Pass2Kids(env, Kids(t), Flags(t), st);
      var u := Look(env, t, flag, st).0;
      assert Kids(u) == LookKids(env, Kids(t), Flags(t), st).0;
      FlagsKept(t, u);
    }
  }

  lemma {:induction false} Pass2Kids(env: Env, ks: seq<Tree>, flags: seq<bool>, st: State)
    requires |flags| == |ks| && st.results.Some? && ResultsCover(st)
    ensures LeavesKids(LookKids(env, ks, flags, st).0, flags) == ReplaceEach(LeavesKids(ks, flags), st.ids, st.results.value)
    ensures forall j :: 0 <= j < |ks| ==> SameShape(ks[j], LookKids(env, ks, flags, st).0[j], flags[j])
    decreases ks
  {
    if ks != [] {
      var n := |ks| - 1;
      var pre, fpre := ks[..n], flags[..n];
      Pass2Kids(env, pre, fpre, st);
      var done := LookKids(env, pre, fpre, st).0;
      Pass2(env, ks[n], flags[n], st);
      var c := Look(env, ks[n], flags[n], st).0;
      var out := done + [c];
      assert LookKids(env, ks, flags, st).0 == out;
      assert out[..n] == done && out[n] == c;
      ShapesSnoc(ks, flags, done, c);
    }
  }

  /** Pass one produces one skeleton per eligible leaf and one run per placeholder. */
  lemma {:induction false} CollectSizes(env: Env, ls: seq<string>, made: nat)
    ensures |Collect(Splits(env), ls, made).skeletons| == |ls|
    ensures |Collect(Splits(env), ls, made).ids| == |Collect(Splits(env), ls, made).frags|
    decreases |ls|
  {
    if ls != [] {
      CollectSizes(env, ls[..|ls| - 1], made);
    }
  }

  /** Where leaf `k`'s placeholders start in the document's list. */
  function Offset(env: Env, ls: seq<string>, made: nat, k: nat): nat
    requires k <= |ls|
  {
    |Collect(Splits(env), ls[..k], made).ids|
  }

  /**
   * Leaf `k` of pass one: its skeleton is the `k`-th, made with splitter
   * number `made + k`, and its placeholders and runs sit side by side in the
   * document's lists from `Offset(k)` on.
   */
  lemma CollectBlock(env: Env, ls: seq<string>, made: nat, k: nat)
    requires k < |ls|
    ensures |Collect(Splits(env), ls, made).skeletons| == |ls|
    ensures |Collect(Splits(env), ls, made).ids| == |Collect(Splits(env), ls, made).frags|
    ensures Collect(Splits(env), ls, made).skeletons[k] == Skeleton(env.tokenize(ls[k]), env.uuids(made + k), env.isFloat)
    ensures Offset(env, ls, made, k) + Slots(LeafPieces(env, ls[k])) <= |Collect(Splits(env), ls, made).ids|
    ensures Collect(Splits(env), ls, made).ids[Offset(env, ls, made, k)..Offset(env, ls, made, k) + Slots(LeafPieces(env, ls[k]))]
            == LocalIds(env.uuids(made + k), Slots(LeafPieces(env, ls[k])))
    ensures Collect(Splits(env), ls, made).frags[Offset(env, ls, made, k)..Offset(env, ls, made, k) + Slots(LeafPieces(env, ls[k]))]
            == HoleTexts(LeafPieces(env, ls[k]))
    ensures Collect(Splits(env), ls, made).skeletons[k]
            == Render(LeafPieces(env, ls[k]), Collect(Splits(env), ls, made).ids, Offset(env, ls, made, k))
  {
    var split := Splits(env);
    CollectAt(split, ls, made, k);
    CollectSizes(env, ls[..k], made);
    CollectSizes(env, ls, made);
    var p, bl, r := Collect(split, ls[..k], made), Block(env, ls[k], made + k), Collect(split, ls[k + 1..], made + k + 1);
    JoinSlices(p, bl, r);
    SkeletonShift(env.tokenize(ls[k]), env.uuids(made + k), env.isFloat, Collect(split, ls, made).ids, |p.ids|);
  }

  /** Leaf `k` of a list contributes between the leaves before it and those after it. */
  lemma CollectAt(split: (string, nat) -> Collected, ls: seq<string>, made: nat, k: nat)
    requires k < |ls|
    ensures Collect(split, ls, made)
            == Join(Join(Collect(split, ls[..k], made), split(ls[k], made + k)), Collect(split, ls[k + 1..], made + k + 1))
  {
    var front, back := ls[..k], ls[k + 1..];
    assert ls == (front + [ls[k]]) + back;
    CollectAppend(split, front + [ls[k]], back, made);
    CollectSnoc(split, front, ls[k], made);
  }

  /** Where the middle part of a three-part join sits. */
  lemma JoinSlices(p: Collected, b: Collected, r: Collected)
    requires |b.skeletons| == 1
    ensures Join(Join(p, b), r).ids[|p.ids|..|p.ids| + |b.ids|] == b.ids
    ensures Join(Join(p, b), r).frags[|p.frags|..|p.frags| + |b.frags|] == b.frags
    ensures Join(Join(p, b), r).skeletons[|p.skeletons|] == b.skeletons[0]
  {
  }

  /** Which splitter made a placeholder, and its number within that splitter. */
  datatype Origin = Origin(splitter: nat, slot: nat)

  /** The origins of the placeholders of splitter `m`, which makes `cnt` of them. */
  function BlockOrigins(m: nat, cnt: nat): (r: seq<Origin>)
    ensures |r| == cnt && forall j :: 0 <= j < cnt ==> r[j] == Origin(m, j)
  {
    seq(cnt, (j: int) requires 0 <= j < cnt => Origin(m, j))
  }

  /** The origin of every placeholder of pass one, in list order. */
  function Origins(env: Env, ls: seq<string>, made: nat): (r: seq<Origin>)
    ensures |r| == |Collect(Splits(env), ls, made).ids|
    decreases |ls|
  {
    if ls == [] then []
    else Origins(env, ls[..|ls| - 1], made) + BlockOrigins(made + |ls| - 1, Slots(LeafPieces(env, ls[|ls| - 1])))
  }

  /** Each placeholder is the one its origin names, made by a splitter numbered in `lo .. hi - 1`. */
  ghost predicate KeysFrom(ids: seq<string>, org: seq<Origin>, keys: nat -> string, lo: nat, hi: nat) {
    |org| == |ids| &&
    forall x :: 0 <= x < |ids| ==> lo <= org[x].splitter < hi && ids[x] == Identifier(keys(org[x].splitter), org[x].slot)
  }

  /** Splitter `m`, the next one, appends its own placeholders and their origins. */
  lemma KeysSnoc(ids: seq<string>, org: seq<Origin>, keys: nat -> string, lo: nat, hi: nat, m: nat, hi': nat, cnt: nat,
                 ids': seq<string>, org': seq<Origin>)
    requires KeysFrom(ids, org, keys, lo, hi) && lo <= hi == m && hi' == m + 1
    requires ids' == ids + LocalIds(keys(m), cnt) && org' == org + BlockOrigins(m, cnt)
    ensures KeysFrom(ids', org', keys, lo, hi')
  {
    forall x | 0 <= x < |ids'|
      ensures lo <= org'[x].splitter < hi' && ids'[x] == Identifier(keys(org'[x].splitter), org'[x].slot)
    {
      if x < |ids| {
        assert ids'[x] == ids[x] && org'[x] == org[x];
      } else {
        assert ids'[x] == Identifier(keys(m), x - |ids|) && org'[x] == Origin(m, x - |ids|);
      }
    }
  }

  /** Every placeholder of pass one is placeholder `slot` of splitter `splitter`, one of the splitters the leaves used. */
  lemma {:induction false} CollectKeys(env: Env, ls: seq<string>, made: nat)
    ensures KeysFrom(Collect(Splits(env), ls, made).ids, Origins(env, ls, made), env.uuids, made, made + |ls|)
    decreases |ls|
  {
    if ls != [] {
      var pre, m := ls[..|ls| - 1], made + |ls| - 1;
      CollectKeys(env, pre, made);
      var cnt := Slots(LeafPieces(env, ls[|ls| - 1]));
      KeysSnoc(Collect(Splits(env), pre, made).ids, Origins(env, pre, made), env.uuids, made, made + |pre|, m, made + |ls|, cnt,
               Collect(Splits(env), ls, made).ids, Origins(env, ls, made));
    }
  }

  /** Distinct placeholders of earlier keys, followed by one more parser's own, stay distinct when its key is new. */
  lemma DistinctJoin(p: seq<string>, org: seq<Origin>, keys: nat -> string, lo: nat, hi: nat, key: string, cnt: nat)
    requires Distinct(p) && KeysFrom(p, org, keys, lo, hi)
    requires forall m :: lo <= m < hi ==> keys(m) != key
    ensures Distinct(p + LocalIds(key, cnt))
  {
    var blk := LocalIds(key, cnt);
    var ids := p + blk;
    LocalIdsDistinct(key, cnt);
    forall x, y | 0 <= x < y < |ids| ensures ids[x] != ids[y] {
      if y < |p| {
        assert ids[x] == p[x] && ids[y] == p[y];
      } else if |p| <= x {
        assert ids[x] == blk[x - |p|] && ids[y] == blk[y - |p|];
      } else {
        assert ids[x] == Identifier(keys(org[x].splitter), org[x].slot);
        assert ids[y] == Identifier(key, y - |p|);
        if ids[x] == ids[y] {
          IdentifierInjective(keys(org[x].splitter), org[x].slot, key, y - |p|);
        }
      }
    }
  }

  /** Splitters with pairwise different keys give a document pairwise different placeholders. */
  lemma {:induction false} CollectDistinct(env: Env, ls: seq<string>, made: nat)
    requires forall a, b :: made <= a < b < made + |ls| ==> env.uuids(a) != env.uuids(b)
    ensures Distinct(Collect(Splits(env), ls, made).ids)
    decreases |ls|
  {
    if ls != [] {
      var pre := ls[..|ls| - 1];
      var p := Collect(Splits(env), pre, made);
      var key := env.uuids(made + |ls| - 1);
      var cnt := Slots(LeafPieces(env, ls[|ls| - 1]));
      CollectDistinct(env, pre, made);
      CollectKeys(env, pre, made);
      assert Collect(Splits(env), ls, made).ids == p.ids + LocalIds(key, cnt);
      DistinctJoin(p.ids, Origins(env, pre, made), env.uuids, made, made + |pre|, key, cnt);
    }
  }

  /** Keys without brackets give bracketed placeholders. */
  lemma CollectBracketed(env: Env, ls: seq<string>, made: nat)
    requires forall m :: made <= m < made + |ls| ==> BracketFree(env.uuids(m))
    ensures AllBracketed(Collect(Splits(env), ls, made).ids)
  {
    var ids := Collect(Splits(env), ls, made).ids;
    CollectKeys(env, ls, made);
    var org := Origins(env, ls, made);
    forall x | 0 <= x < |ids| ensures Bracketed(ids[x]) {
      IdentifierBracketed(env.uuids(org[x].splitter), org[x].slot);
    }
  }
}
