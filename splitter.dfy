/**
 * The markup splitter: the callbacks of `MyHTMLParser`, driven by the event
 * stream the library tokenizer produces for one leaf's markup. The callbacks
 * rebuild the markup in `data`, put a placeholder `[<key>-<count>]` where
 * every non-blank text run was, and record placeholder and run in two
 * parallel lists.
 */
module Splitter {
  import opened Wrappers
  import opened PyStr

  /** The annotation marker's tag name; it is dropped from the rebuilt markup. */
  const NerTag := "ner"

  /** An attribute as the tokenizer reports it; `None` for a bare attribute. */
  datatype Attr = Attr(name: string, value: Option<string>)

  /** One tokenizer callback. */
  datatype Event =
    | StartTag(tag: string, attrs: seq<Attr>)
    | EndTag(tag: string)
    | Data(text: string)

  /** Python truthiness of an attribute value: neither `None` nor `''`. */
  predicate Truthy(v: Option<string>) {
    v.Some? && v.value != ""
  }

  /** `name=v ` for a numeric value, `name='v' ` otherwise. */
  function AttrText(a: Attr, isFloat: string -> bool): string
    requires Truthy(a.value)
  {
    var v := a.value.value;
    a.name + "=" + (if isFloat(v) then v else "'" + v + "'") + " "
  }

  /** What the loop over the attributes leaves in `attributes`, which every truthy attribute overwrites. */
  function LastAttrText(attrs: seq<Attr>, isFloat: string -> bool): string {
    if attrs == [] then ""
    else if Truthy(attrs[|attrs| - 1].value) then AttrText(attrs[|attrs| - 1], isFloat)
    else LastAttrText(attrs[..|attrs| - 1], isFloat)
  }

  /** `j` is the last attribute with a truthy value. */
  ghost predicate LastTruthyAt(attrs: seq<Attr>, j: nat) {
    j < |attrs| && Truthy(attrs[j].value) && forall i :: j < i < |attrs| ==> !Truthy(attrs[i].value)
  }

  ghost predicate NoneTruthy(attrs: seq<Attr>) {
    forall i :: 0 <= i < |attrs| ==> !Truthy(attrs[i].value)
  }

  /** When every value is falsy, no attribute survives. */
  lemma {:induction false} LastAttrTextNone(attrs: seq<Attr>, isFloat: string -> bool)
    requires NoneTruthy(attrs)
    ensures LastAttrText(attrs, isFloat) == ""
    decreases |attrs|
  {
    if attrs != [] {
      var pre := attrs[..|attrs| - 1];
      assert forall i :: 0 <= i < |pre| ==> pre[i] == attrs[i];
      LastAttrTextNone(pre, isFloat);
    }
  }

  /** Only the last attribute with a truthy value survives. */
  lemma {:induction false} LastAttrTextLast(attrs: seq<Attr>, isFloat: string -> bool, j: nat)
    requires LastTruthyAt(attrs, j)
    ensures LastAttrText(attrs, isFloat) == AttrText(attrs[j], isFloat)
    decreases |attrs|
  {
    if j < |attrs| - 1 {
      var pre := attrs[..|attrs| - 1];
      assert forall i :: 0 <= i < |pre| ==> pre[i] == attrs[i];
      assert !Truthy(attrs[|attrs| - 1].value);
      LastAttrTextLast(pre, isFloat, j);
    }
  }

  /** The rebuilt start tag: `<tag X>` with X the stripped surviving attribute. */
  function StartTagText(tag: string, attrs: seq<Attr>, isFloat: string -> bool): string {
    "<" + tag + " " + Strip(LastAttrText(attrs, isFloat)) + ">"
  }

  function EndTagText(tag: string): string {
    "</" + tag + ">"
  }

  /** A text run that gets a placeholder: non-empty and not all whitespace. */
  predicate IsRun(text: string) {
    text != "" && !IsSpace(text)
  }

  /** The placeholder `[<key>-<n>]`. */
  function Identifier(key: string, n: nat): string {
    "[" + key + "-" + Decimal(n) + "]"
  }

  /** The first `n` placeholders of one parser. */
  function LocalIds(key: string, n: nat): (ids: seq<string>)
    ensures |ids| == n && forall j :: 0 <= j < n ==> ids[j] == Identifier(key, j)
  {
    seq(n, (j: int) requires 0 <= j < n => Identifier(key, j))
  }

  /** The index of the last `c` in `s`, or -1. */
  function LastIndexOf(s: string, c: char): (r: int)
    ensures -1 <= r < |s|
  {
    if s == [] then -1
    else if s[|s| - 1] == c then |s| - 1
    else LastIndexOf(s[..|s| - 1], c)
  }

  lemma {:induction false} LastIndexOfDigits(k: string, d: string)
    requires forall i :: 0 <= i < |d| ==> IsDigit(d[i])
    ensures LastIndexOf(k + "-" + d, '-') == |k|
    decreases |d|
  {
    var s := k + "-" + d;
    if d == [] {
      assert s[|s| - 1] == '-';
    } else {
      assert IsDigit(d[|d| - 1]);
      assert s[|s| - 1] == d[|d| - 1];
      assert s[..|s| - 1] == k + "-" + d[..|d| - 1];
      LastIndexOfDigits(k, d[..|d| - 1]);
    }
  }

  /** Placeholders with different keys or different counters differ: the key ends at the last '-'. */
  lemma IdentifierInjective(k1: string, n1: nat, k2: string, n2: nat)
    requires Identifier(k1, n1) == Identifier(k2, n2)
    ensures k1 == k2 && n1 == n2
  {
    var d1, d2 := Decimal(n1), Decimal(n2);
    var s1, s2 := k1 + "-" + d1, k2 + "-" + d2;
    assert Identifier(k1, n1) == "[" + s1 + "]" && Identifier(k2, n2) == "[" + s2 + "]";
    assert s1 == Identifier(k1, n1)[1..|s1| + 1];
    assert s1 == s2;
    LastIndexOfDigits(k1, d1);
    LastIndexOfDigits(k2, d2);
    assert k1 == s1[..|k1|] && k2 == s2[..|k2|];
    assert d1 == s1[|k1| + 1..] && d2 == s2[|k2| + 1..];
    DecimalInjective(n1, n2);
  }

  ghost predicate Distinct(xs: seq<string>) {
    forall i, j :: 0 <= i < j < |xs| ==> xs[i] != xs[j]
  }

  /** All placeholders one parser makes are pairwise distinct. */
  lemma LocalIdsDistinct(key: string, n: nat)
    ensures Distinct(LocalIds(key, n))
  {
    var ids := LocalIds(key, n);
    forall i, j | 0 <= i < j < n ensures ids[i] != ids[j] {
      if ids[i] == ids[j] {
        IdentifierInjective(key, i, key, j);
      }
    }
  }

  predicate BracketFree(s: string) {
    forall m :: 0 <= m < |s| ==> s[m] != '[' && s[m] != ']'
  }

  /** `[...]` with no bracket inside: two such strings cannot overlap unless equal. */
  ghost predicate Bracketed(p: string) {
    |p| >= 2 && p[0] == '[' && p[|p| - 1] == ']' && BracketFree(p[1..|p| - 1])
  }

  lemma IdentifierBracketed(key: string, n: nat)
    requires BracketFree(key)
    ensures Bracketed(Identifier(key, n))
  {
    var p := Identifier(key, n);
    var inner := key + "-" + Decimal(n);
    assert p == "[" + inner + "]";
    assert p[1..|p| - 1] == inner;
    forall m | 0 <= m < |inner| ensures inner[m] != '[' && inner[m] != ']' {
      if m > |key| {
        assert inner[m] == Decimal(n)[m - |key| - 1];
        assert IsDigit(Decimal(n)[m - |key| - 1]);
      }
    }
  }

  /**
   * A piece of rebuilt markup: literal text, or the slot of a text run, which
   * remembers the run it stands for. Slots are numbered by their order.
   */
  datatype Piece = Lit(text: string) | Hole(text: string)

  /** The number of slots. */
  function Slots(ps: seq<Piece>): nat {
    if ps == [] then 0 else (if ps[0].Hole? then 1 else 0) + Slots(ps[1..])
  }

  /** The runs, in order, that the pieces hold slots for: one per slot. */
  function HoleTexts(ps: seq<Piece>): (r: seq<string>)
    ensures |r| == Slots(ps)
  {
    if ps == [] then []
    else (if ps[0].Hole? then [ps[0].text] else []) + HoleTexts(ps[1..])
  }

  lemma {:induction false} HoleTextsAppend(a: seq<Piece>, b: seq<Piece>)
    ensures HoleTexts(a + b) == HoleTexts(a) + HoleTexts(b)
    decreases |a|
  {
    if a == [] {
      assert a + b == b;
    } else {
      assert (a + b)[1..] == a[1..] + b;
      HoleTextsAppend(a[1..], b);
    }
  }

  /** The pieces one callback contributes. */
  function EventPieces(e: Event, isFloat: string -> bool): seq<Piece> {
    match e
    case StartTag(tag, attrs) =>
      if tag == NerTag then [] else [Lit(StartTagText(tag, attrs, isFloat))]
    case EndTag(tag) =>
      if tag == NerTag then [] else [Lit(EndTagText(tag))]
    case Data(text) =>
      if IsRun(text) then [Hole(text)] else [Lit(text)]
  }

  /** The pieces a stream of callbacks contributes, in order. */
  function Pieces(evs: seq<Event>, isFloat: string -> bool): seq<Piece> {
    if evs == [] then []
    else Pieces(evs[..|evs| - 1], isFloat) + EventPieces(evs[|evs| - 1], isFloat)
  }

  function PieceText(p: Piece, fill: seq<string>, n: nat): string
    requires p.Hole? ==> n < |fill|
  {
    match p
    case Lit(t) => t
    case Hole(_) => fill[n]
  }

  /** The markup the pieces spell when their slots, numbered from `n`, hold `fill[n]`, `fill[n + 1]`, ... */
  function Render(ps: seq<Piece>, fill: seq<string>, n: nat): string
    requires n + Slots(ps) <= |fill|
    decreases |ps|
  {
    if ps == [] then ""
    else
      var m := if ps[0].Hole? then n + 1 else n;
      PieceText(ps[0], fill, n) + Render(ps[1..], fill, m)
  }

  lemma {:induction false} SlotsAppend(a: seq<Piece>, b: seq<Piece>)
    ensures Slots(a + b) == Slots(a) + Slots(b)
    decreases |a|
  {
    if a == [] {
      assert a + b == b;
    } else {
      assert (a + b)[0] == a[0] && (a + b)[1..] == a[1..] + b;
      SlotsAppend(a[1..], b);
    }
  }

  lemma RenderUnfold(ps: seq<Piece>, fill: seq<string>, n: nat)
    requires ps != [] && n + Slots(ps) <= |fill|
    ensures Render(ps, fill, n) == PieceText(ps[0], fill, n) + Render(ps[1..], fill, if ps[0].Hole? then n + 1 else n)
  {
  }

  lemma ConcatAssoc<T>(x: seq<T>, y: seq<T>, z: seq<T>)
    ensures x + (y + z) == (x + y) + z
  {
  }

  /** Rendering a concatenation, with the second part's first slot `k` named. */
  lemma {:induction false} RenderAppendAt(a: seq<Piece>, b: seq<Piece>, fill: seq<string>, n: nat, k: nat)
    requires k == n + Slots(a) && k + Slots(b) <= |fill|
    ensures Slots(a + b) == Slots(a) + Slots(b)
    ensures Render(a + b, fill, n) == Render(a, fill, n) + Render(b, fill, k)
    decreases |a|
  {
    SlotsAppend(a, b);
    if a == [] {
      assert a + b == b;
    } else {
      var m := if a[0].Hole? then n + 1 else n;
      assert (a + b)[0] == a[0] && (a + b)[1..] == a[1..] + b;
      RenderAppendAt(a[1..], b, fill, m, k);
      var t, x, y := PieceText(a[0], fill, n), Render(a[1..], fill, m), Render(b, fill, k);
      RenderUnfold(a + b, fill, n);
      RenderUnfold(a, fill, n);
      ConcatAssoc(t, x, y);
    }
  }

  lemma RenderAppend(a: seq<Piece>, b: seq<Piece>, fill: seq<string>, n: nat)
    requires n + Slots(a) + Slots(b) <= |fill|
    ensures Slots(a + b) == Slots(a) + Slots(b)
    ensures Render(a + b, fill, n) == Render(a, fill, n) + Render(b, fill, n + Slots(a))
  {
    RenderAppendAt(a, b, fill, n, n + Slots(a));
  }

  /** Only the slots the pieces use matter. */
  lemma {:induction false} RenderAgree(ps: seq<Piece>, f: seq<string>, g: seq<string>, n: nat)
    requires n + Slots(ps) <= |f| && n + Slots(ps) <= |g|
    requires forall j :: n <= j < n + Slots(ps) ==> f[j] == g[j]
    ensures Render(ps, f, n) == Render(ps, g, n)
    decreases |ps|
  {
    if ps != [] {
      var m := if ps[0].Hole? then n + 1 else n;
      RenderAgree(ps[1..], f, g, m);
    }
  }

  /** Rendering depends only on what the slots hold, not on where the fill keeps it. */
  lemma {:induction false} RenderShift(ps: seq<Piece>, f: seq<string>, a: nat, g: seq<string>, b: nat)
    requires a + Slots(ps) <= |f| && b + Slots(ps) <= |g|
    requires f[a..a + Slots(ps)] == g[b..b + Slots(ps)]
    ensures Render(ps, f, a) == Render(ps, g, b)
    decreases |ps|
  {
    if ps != [] {
      var h := if ps[0].Hole? then 1 else 0;
      var k := Slots(ps);
      if ps[0].Hole? {
        assert f[a..a + k][0] == g[b..b + k][0];
      }
      assert f[a + h..a + k] == f[a..a + k][h..] && g[b + h..b + k] == g[b..b + k][h..];
      RenderShift(ps[1..], f, a + h, g, b + h);
    }
  }

  /** Rendering one more piece group after a prefix whose slots are already filled the same way. */
  lemma RenderSnoc(a: seq<Piece>, b: seq<Piece>, f: seq<string>, g: seq<string>, n: nat)
    requires n + Slots(a) <= |f| && n + Slots(a) + Slots(b) <= |g|
    requires forall j :: n <= j < n + Slots(a) ==> f[j] == g[j]
    ensures Slots(a + b) == Slots(a) + Slots(b)
    ensures HoleTexts(a + b) == HoleTexts(a) + HoleTexts(b)
    ensures Render(a + b, g, n) == Render(a, f, n) + Render(b, g, n + Slots(a))
  {
    RenderAgree(a, f, g, n);
    RenderAppend(a, b, g, n);
    HoleTextsAppend(a, b);
  }

  /** Two stretches of parser output written one after the other compose into one stretch. */
  lemma ComposeOutput(key: string, ps: seq<Piece>, qs: seq<Piece>, c0: nat, c1: nat, c2: nat,
                      d0: string, d1: string, d2: string, l0: seq<string>, l1: seq<string>, l2: seq<string>)
    requires c1 == c0 + Slots(ps) && d1 == d0 + Render(ps, LocalIds(key, c1), c0) && l1 == l0 + HoleTexts(ps)
    requires c2 == c1 + Slots(qs) && d2 == d1 + Render(qs, LocalIds(key, c2), c1) && l2 == l1 + HoleTexts(qs)
    ensures c2 == c0 + Slots(ps + qs)
    ensures d2 == d0 + Render(ps + qs, LocalIds(key, c2), c0)
    ensures l2 == l0 + HoleTexts(ps + qs)
  {
    RenderSnoc(ps, qs, LocalIds(key, c1), LocalIds(key, c2), c0);
    ConcatAssoc(d0, Render(ps, LocalIds(key, c1), c0), Render(qs, LocalIds(key, c2), c1));
    ConcatAssoc(l0, HoleTexts(ps), HoleTexts(qs));
  }

  lemma PiecesStep(evs: seq<Event>, i: nat, isFloat: string -> bool)
    requires i < |evs|
    ensures Pieces(evs[..i + 1], isFloat) == Pieces(evs[..i], isFloat) + EventPieces(evs[i], isFloat)
  {
    assert evs[..i + 1][..i] == evs[..i];
  }

  /** The markup the parser rebuilds for a leaf when `key` is its placeholder key. */
  function Skeleton(evs: seq<Event>, key: string, isFloat: string -> bool): string {
    var ps := Pieces(evs, isFloat);
    Render(ps, LocalIds(key, Slots(ps)), 0)
  }

  /** A skeleton is its pieces with its own placeholders, wherever a list keeps them side by side. */
  lemma SkeletonShift(evs: seq<Event>, key: string, isFloat: string -> bool, ids: seq<string>, o: nat)
    requires o + Slots(Pieces(evs, isFloat)) <= |ids|
    requires ids[o..o + Slots(Pieces(evs, isFloat))] == LocalIds(key, Slots(Pieces(evs, isFloat)))
    ensures Skeleton(evs, key, isFloat) == Render(Pieces(evs, isFloat), ids, o)
  {
    var ps := Pieces(evs, isFloat);
    var n := Slots(ps);
    assert LocalIds(key, n)[0..n] == LocalIds(key, n);
    RenderShift(ps, LocalIds(key, n), 0, ids, o);
  }

  /** The runs the parser extracts from a leaf. */
  function Runs(evs: seq<Event>, isFloat: string -> bool): seq<string> {
    HoleTexts(Pieces(evs, isFloat))
  }

  /** The text one callback puts back when every run is kept in place. */
  function NormalizedEvent(e: Event, isFloat: string -> bool): string {
    match e
    case StartTag(tag, attrs) => if tag == NerTag then "" else StartTagText(tag, attrs, isFloat)
    case EndTag(tag) => if tag == NerTag then "" else EndTagText(tag)
    case Data(text) => text
  }

  /** What one callback contributes: a slot for a run, its rebuilt markup otherwise. */
  lemma EventPiecesShape(e: Event, isFloat: string -> bool, fill: seq<string>, n: nat)
    ensures var run := e.Data? && IsRun(e.text);
            var ps := EventPieces(e, isFloat);
            Slots(ps) == (if run then 1 else 0)
            && HoleTexts(ps) == (if run then [e.text] else [])
            && (n + Slots(ps) <= |fill| ==>
                  Render(ps, fill, n) == if run then fill[n] else NormalizedEvent(e, isFloat))
  {
    var ps := EventPieces(e, isFloat);
    if ps != [] {
      assert ps[1..] == [];
    }
  }

  /** One callback's pieces with its run, if any, in its slot give back its normalized text. */
  lemma EventInPlace(e: Event, isFloat: string -> bool, fill: seq<string>, i: nat)
    requires i + Slots(EventPieces(e, isFloat)) <= |fill|
    requires forall k :: 0 <= k < |HoleTexts(EventPieces(e, isFloat))| ==> fill[i + k] == HoleTexts(EventPieces(e, isFloat))[k]
    ensures Render(EventPieces(e, isFloat), fill, i) == NormalizedEvent(e, isFloat)
  {
    var ps := EventPieces(e, isFloat);
    if ps != [] {
      assert ps[1..] == [];
      if ps[0].Hole? {
        assert HoleTexts(ps)[0] == e.text;
        assert fill[i + 0] == HoleTexts(ps)[0];
      }
    }
  }

  /** The callbacks' markup with every run kept in place: tags rebuilt, `ner` tags dropped. */
  function Normalized(evs: seq<Event>, isFloat: string -> bool): string {
    if evs == [] then ""
    else Normalized(evs[..|evs| - 1], isFloat) + NormalizedEvent(evs[|evs| - 1], isFloat)
  }

  /** A callback list's pieces and runs are those of all but its last callback, followed by the last one's. */
  lemma RunsSplit(pre: seq<Event>, e: Event, isFloat: string -> bool)
    ensures Pieces(pre + [e], isFloat) == Pieces(pre, isFloat) + EventPieces(e, isFloat)
    ensures Runs(pre + [e], isFloat) == Runs(pre, isFloat) + HoleTexts(EventPieces(e, isFloat))
  {
    var evs := pre + [e];
    assert evs[..|evs| - 1] == pre && evs[|evs| - 1] == e;
    HoleTextsAppend(Pieces(pre, isFloat), EventPieces(e, isFloat));
  }

  /** Pieces rendered over their own runs followed by more runs: the prefix only reads its own. */
  lemma RenderJoin(a: seq<Piece>, b: seq<Piece>, ra: seq<string>, rb: seq<string>)
    requires |ra| == Slots(a) && |rb| == Slots(b)
    ensures Slots(a + b) == Slots(a) + Slots(b)
    ensures Render(a + b, ra + rb, 0) == Render(a, ra, 0) + Render(b, ra + rb, |ra|)
  {
    RenderAppend(a, b, ra + rb, 0);
    RenderAgree(a, ra, ra + rb, 0);
  }

  /** The last callback's pieces, rendered where its own runs follow earlier ones. */
  lemma EventAfter(e: Event, isFloat: string -> bool, ra: seq<string>)
    ensures Render(EventPieces(e, isFloat), ra + HoleTexts(EventPieces(e, isFloat)), |ra|) == NormalizedEvent(e, isFloat)
  {
    var rb := HoleTexts(EventPieces(e, isFloat));
    var r := ra + rb;
    forall k | 0 <= k < |rb| ensures r[|ra| + k] == rb[k] {
    }
    EventInPlace(e, isFloat, r, |ra|);
  }

  /**
   * Putting every run back into its own slot gives the normalized markup of
   * the event stream: the text of the event stream is kept, except for the
   * `ner` tags and the attributes the rebuilt start tags drop.
   */
  lemma {:induction false} RenderRunsInPlace(evs: seq<Event>, isFloat: string -> bool)
    ensures Render(Pieces(evs, isFloat), Runs(evs, isFloat), 0) == Normalized(evs, isFloat)
    decreases |evs|
  {
    if evs != [] {
      var pre, e := evs[..|evs| - 1], evs[|evs| - 1];
      assert evs == pre + [e];
      RunsSplit(pre, e, isFloat);
      var a, b := Pieces(pre, isFloat), EventPieces(e, isFloat);
      var ra, rb := Runs(pre, isFloat), HoleTexts(b);
      RenderRunsInPlace(pre, isFloat);
      RenderJoin(a, b, ra, rb);
      EventAfter(e, isFloat, ra);
      calc {
        Render(Pieces(evs, isFloat), Runs(evs, isFloat), 0);
        Render(a + b, ra + rb, 0);
        Render(a, ra, 0) + Render(b, ra + rb, |ra|);
        Normalized(pre, isFloat) + NormalizedEvent(e, isFloat);
        Normalized(evs, isFloat);
      }
    }
  }

  /**
   * `MyHTMLParser`: its state, its three callbacks and the feed that drives
   * them over one leaf's events.
   */
  class Parser {
    var data: string
    var nerIdentifierList: seq<string>
    var nerDataList: seq<string>
    var identifierCount: nat
    const identifierKey: string
    const isFloat: string -> bool

    /** Both lists have one entry per placeholder issued; the i-th placeholder is `[key-i]`. */
    ghost predicate Valid()
      reads this
    {
      |nerDataList| == identifierCount && nerIdentifierList == LocalIds(identifierKey, identifierCount)
    }

    constructor (key: string, isFloat: string -> bool)
      ensures Valid()
      ensures data == "" && nerIdentifierList == [] && nerDataList == [] && identifierCount == 0
      ensures identifierKey == key && this.isFloat == isFloat
    {
      data := "";
      nerIdentifierList := [];
      nerDataList := [];
      identifierCount := 0;
      identifierKey := key;
      this.isFloat := isFloat;
    }

    method HandleStartTag(tag: string, attrs: seq<Attr>)
      modifies this`data
      ensures data == old(data) + (if tag == NerTag then "" else StartTagText(tag, attrs, isFloat))
    {
      if tag == NerTag {
        return;
      }
      var attributes := CollectAttributes(attrs, isFloat);
      data := data + "<" + tag + " " + Strip(attributes) + ">";
    }

    method HandleEndTag(tag: string)
      modifies this`data
      ensures data == old(data) + (if tag == NerTag then "" else EndTagText(tag))
    {
      if tag == NerTag {
        return;
      }
      data := data + "</" + tag + ">";
    }

    method HandleData(text: string)
      requires Valid()
      modifies this
      ensures Valid()
      ensures IsRun(text) ==>
                data == old(data) + Identifier(identifierKey, old(identifierCount))
                && nerIdentifierList == old(nerIdentifierList) + [Identifier(identifierKey, old(identifierCount))]
                && nerDataList == old(nerDataList) + [text]
                && identifierCount == old(identifierCount) + 1
      ensures !IsRun(text) ==>
                data == old(data) + text
                && nerIdentifierList == old(nerIdentifierList) && nerDataList == old(nerDataList)
                && identifierCount == old(identifierCount)
    {
      if text != "" && !IsSpace(text) {
        var identifier := "[" + identifierKey + "-" + Decimal(identifierCount) + "]";
        data := data + identifier;
        nerIdentifierList := nerIdentifierList + [identifier];
        nerDataList := nerDataList + [text];
        identifierCount := identifierCount + 1;
      } else {
        data := data + text;
      }
    }

    /** The callback the library makes for one event. */
    method HandleEvent(ev: Event)
      requires Valid()
      modifies this
      ensures Valid()
      ensures var ps := EventPieces(ev, isFloat);
              identifierCount == old(identifierCount) + Slots(ps)
              && data == old(data) + Render(ps, nerIdentifierList, old(identifierCount))
              && nerDataList == old(nerDataList) + HoleTexts(ps)
    {
      EventPiecesShape(ev, isFloat, LocalIds(identifierKey, identifierCount + 1), identifierCount);
      match ev {
        case StartTag(tag, attrs) => HandleStartTag(tag, attrs);
        case EndTag(tag) => HandleEndTag(tag);
        case Data(text) => HandleData(text);
      }
    }

    /** The library's `feed`: one callback per event, in order. */
    method Feed(evs: seq<Event>)
      requires Valid()
      modifies this
      ensures Valid()
      ensures var ps := Pieces(evs, isFloat);
              identifierCount == old(identifierCount) + Slots(ps)
              && data == old(data) + Render(ps, nerIdentifierList, old(identifierCount))
              && nerDataList == old(nerDataList) + HoleTexts(ps)
    {
      ghost var c0, d0, l0 := identifierCount, data, nerDataList;
      for i := 0 to |evs|
        invariant Valid()
        invariant identifierCount == c0 + Slots(Pieces(evs[..i], isFloat))
        invariant data == d0 + Render(Pieces(evs[..i], isFloat), nerIdentifierList, c0)
        invariant nerDataList == l0 + HoleTexts(Pieces(evs[..i], isFloat))
      {
        ghost var c1, d1, l1 := identifierCount, data, nerDataList;
        HandleEvent(evs[i]);
        PiecesStep(evs, i, isFloat);
        ComposeOutput(identifierKey, Pieces(evs[..i], isFloat), EventPieces(evs[i], isFloat),
                      c0, c1, identifierCount, d0, d1, data, l0, l1, nerDataList);
      }
      assert evs[..|evs|] == evs;
    }
  }

  /** The `attributes` loop of `handle_starttag`: a falsy value is skipped, a truthy one overwrites. */
  method CollectAttributes(attrs: seq<Attr>, isFloat: string -> bool) returns (attributes: string)
    ensures attributes == LastAttrText(attrs, isFloat)
  {
    attributes := "";
    for i := 0 to |attrs|
      invariant attributes == LastAttrText(attrs[..i], isFloat)
    {
      assert attrs[..i + 1][..i] == attrs[..i];
      var attrVal := attrs[i].value;
      if attrVal.None? || attrVal.value == "" {
        continue;
      }
      var v := attrVal.value;
      if !isFloat(v) {
        v := "'" + v + "'";
      }
      attributes := attrs[i].name + "=" + v + " ";
    }
    assert attrs[..|attrs|] == attrs;
  }
}
