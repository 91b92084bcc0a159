/**
 * `processEsDoc`: one document goes through pass one (collect the runs of
 * every eligible leaf), the recognizer (annotate every run), and pass two
 * (put every annotation back in place of its placeholder). Fetching the
 * document and writing it back to the index are not part of this model.
 */
module Driver {
  import opened Wrappers
  import opened PyStr
  import opened Splitter
  import opened Reinsert
  import opened Ner
  import opened Walker

  /** The recognizer keeps every organisation's span within the tokens of its document. */
  ghost predicate NlpFits(nlp: string -> Doc) {
    forall s :: SpansFit(nlp(s).ents, |nlp(s).tokens|)
  }

  /** The state in which pass two starts: the lists of pass one, and a result for every run. */
  function WithResults(st: State, nlp: string -> Doc): (r: State)
    requires NlpFits(nlp)
    ensures r.ids == st.ids && r.frags == st.frags && r.made == st.made
    ensures r.results.Some? && |r.results.value| == |st.frags|
  {
    State(st.ids, st.frags, Some(NerResults(nlp, st.frags)), st.made)
  }

  /** Pass one from the empty lists: the document's own collection. */
  lemma StartPass1(env: Env, t: Tree)
    ensures Look(env, t, false, State([], [], None, 0)).1
            == State(Collect(Splits(env), Leaves(t, false), 0).ids, Collect(Splits(env), Leaves(t, false), 0).frags,
                     None, |Leaves(t, false)|)
    ensures |Collect(Splits(env), Leaves(t, false), 0).ids| == |Collect(Splits(env), Leaves(t, false), 0).frags|
  {
    Pass1(env, t, false, State([], [], None, 0));
    CollectSizes(env, Leaves(t, false), 0);
    var c := Collect(Splits(env), Leaves(t, false), 0);
    assert [] + c.ids == c.ids && [] + c.frags == c.frags;
  }

  /** The document after both passes, walked from `obj` with `isLast` false. */
  function Processed(env: Env, nlp: string -> Doc, t: Tree): Tree
    requires NlpFits(nlp)
  {
    StartPass1(env, t);
    var (collected, st) := Look(env, t, false, State([], [], None, 0));
    Look(env, collected, false, WithResults(st, nlp)).0
  }

  /** `processEsDoc` without the index: the two walks with the recognizer between them. */
  method ProcessDoc(env: Env, nlp: string -> Doc, t: Tree) returns (r: Tree)
    requires WellFormed(t) && LeavesOk(t, false) && NlpFits(nlp)
    ensures r == Processed(env, nlp, t)
  {
    var session := new Session(env);
    var collected := session.RecursiveLook(t, false);
    Pass1(env, t, false, State([], [], None, 0));
    StartPass1(env, t);
    ShapeKeeps(t, collected, false);
    var nerResultList := NerPipeline(nlp, session.frags);
    session.results := Some(nerResultList);
    r := session.RecursiveLook(collected, false);
  }

  /** One leaf annotated on its own: its markup rebuilt with every text run replaced by the recognizer's annotation of it. */
  function Annotated(env: Env, nlp: string -> Doc, s: string): string
    requires NlpFits(nlp)
  {
    Render(LeafPieces(env, s), NerResults(nlp, Runs(env.tokenize(s), env.isFloat)), 0)
  }

  /** The placeholders of the whole document, in the order pass one makes them. */
  function DocIds(env: Env, t: Tree): seq<string> {
    Collect(Splits(env), Leaves(t, false), 0).ids
  }

  /**
   * Pass two on leaf `k` of pass one undoes the placeholders: replacing every
   * placeholder of the document in its skeleton gives the leaf annotated on its
   * own, provided the keys are pairwise different and bracket-free and no
   * placeholder occurs in that annotated leaf.
   */
  lemma LeafAnnotated(env: Env, nlp: string -> Doc, ls: seq<string>, k: nat)
    requires NlpFits(nlp) && k < |ls|
    requires forall a, b :: 0 <= a < b < |ls| ==> env.uuids(a) != env.uuids(b)
    requires forall m :: 0 <= m < |ls| ==> BracketFree(env.uuids(m))
    requires forall x :: 0 <= x < |Collect(Splits(env), ls, 0).ids| ==>
               !Occurs(Collect(Splits(env), ls, 0).ids[x], Annotated(env, nlp, ls[k]))
    ensures |Collect(Splits(env), ls, 0).skeletons| == |ls|
    ensures |Collect(Splits(env), ls, 0).ids| == |Collect(Splits(env), ls, 0).frags|
    ensures ReplaceSeq(Collect(Splits(env), ls, 0).skeletons[k], Collect(Splits(env), ls, 0).ids,
                       NerResults(nlp, Collect(Splits(env), ls, 0).frags))
            == Annotated(env, nlp, ls[k])
  {
    var c := Collect(Splits(env), ls, 0);
    var ps, o := LeafPieces(env, ls[k]), Offset(env, ls, 0, k);
    CollectBlock(env, ls, 0, k);
    ResultsInPlace(env, nlp, ls, k);
    CollectDistinct(env, ls, 0);
    CollectBracketed(env, ls, 0);
    ReplaceRestoresSlots(ps, c.ids, NerResults(nlp, c.frags), o);
  }

  /** Pieces whose runs sit in `frags` from `o` on render the same over the results from `o` on as over their own results. */
  lemma ResultsShift(nlp: string -> Doc, ps: seq<Piece>, frags: seq<string>, o: nat, e: nat)
    requires NlpFits(nlp) && e == o + Slots(ps) && e <= |frags|
    requires frags[o..e] == HoleTexts(ps)
    ensures Render(ps, NerResults(nlp, frags), o) == Render(ps, NerResults(nlp, HoleTexts(ps)), 0)
  {
    var res, own := NerResults(nlp, frags), NerResults(nlp, HoleTexts(ps));
    NerResultsSlice(nlp, frags, o, e);
    assert own[0..Slots(ps)] == own;
    RenderShift(ps, res, o, own, 0);
  }

  /** Leaf `k`'s pieces with the document's results from its offset on are the leaf annotated on its own. */
  lemma ResultsInPlace(env: Env, nlp: string -> Doc, ls: seq<string>, k: nat)
    requires NlpFits(nlp) && k < |ls|
    ensures |Collect(Splits(env), ls, 0).frags| == |Collect(Splits(env), ls, 0).ids|
    ensures Offset(env, ls, 0, k) + Slots(LeafPieces(env, ls[k])) <= |Collect(Splits(env), ls, 0).frags|
    ensures Render(LeafPieces(env, ls[k]), NerResults(nlp, Collect(Splits(env), ls, 0).frags), Offset(env, ls, 0, k))
            == Annotated(env, nlp, ls[k])
  {
    CollectBlock(env, ls, 0, k);
    var ps, o := LeafPieces(env, ls[k]), Offset(env, ls, 0, k);
    ResultsShift(nlp, ps, Collect(Splits(env), ls, 0).frags, o, o + Slots(ps));
  }

  /**
   * The two passes annotate every eligible leaf on its own and change nothing
   * else, when the splitters' keys are pairwise different and bracket-free and
   * no placeholder of the document occurs in an annotated leaf.
   */
  lemma ProcessedAnnotates(env: Env, nlp: string -> Doc, t: Tree)
    requires NlpFits(nlp)
    requires forall a, b :: 0 <= a < b < |Leaves(t, false)| ==> env.uuids(a) != env.uuids(b)
    requires forall m :: 0 <= m < |Leaves(t, false)| ==> BracketFree(env.uuids(m))
    requires forall k, x :: 0 <= k < |Leaves(t, false)| && 0 <= x < |DocIds(env, t)| ==>
               !Occurs(DocIds(env, t)[x], Annotated(env, nlp, Leaves(t, false)[k]))
    ensures SameShape(t, Processed(env, nlp, t), false)
    ensures |Leaves(Processed(env, nlp, t), false)| == |Leaves(t, false)|
    ensures forall k :: 0 <= k < |Leaves(t, false)| ==>
              Leaves(Processed(env, nlp, t), false)[k] == Annotated(env, nlp, Leaves(t, false)[k])
  {
    var ls := Leaves(t, false);
    var c := Collect(Splits(env), ls, 0);
    var st0 := State([], [], None, 0);
    Pass1(env, t, false, st0);
    StartPass1(env, t);
    var (u1, s1) := Look(env, t, false, st0);
    var s2 := WithResults(s1, nlp);
    Pass2(env, u1, false, s2);
    var u2 := Look(env, u1, false, s2).0;
    assert u2 == Processed(env, nlp, t);
    ShapeTrans(t, u1, u2, false);
    CollectSizes(env, ls, 0);
    assert DocIds(env, t) == c.ids;
    forall k | 0 <= k < |ls| ensures Leaves(u2, false)[k] == Annotated(env, nlp, ls[k]) {
      assert forall x :: 0 <= x < |c.ids| ==> !Occurs(DocIds(env, t)[x], Annotated(env, nlp, ls[k]));
      LeafAnnotated(env, nlp, ls, k);
    }
  }

  /** A recognizer that gives every run of a leaf back unchanged gives back the leaf's normalized markup. */
  lemma AnnotatedIdentity(env: Env, nlp: string -> Doc, s: string)
    requires NlpFits(nlp)
    requires forall j :: 0 <= j < |Runs(env.tokenize(s), env.isFloat)| ==>
               NerText(nlp(Runs(env.tokenize(s), env.isFloat)[j])) == Runs(env.tokenize(s), env.isFloat)[j]
    ensures Annotated(env, nlp, s) == Normalized(env.tokenize(s), env.isFloat)
  {
    var runs := Runs(env.tokenize(s), env.isFloat);
    assert NerResults(nlp, runs) == runs;
    RenderRunsInPlace(env.tokenize(s), env.isFloat);
  }
}
