/**
 * Pass two on one leaf: the annotated runs go back into the rebuilt markup by
 * replacing each placeholder of the document, in list order, with its result.
 * The theorem of this module says when that textual replacement restores
 * exactly the slot structure: the placeholders are pairwise distinct,
 * bracketed, and none of them occurs in the text being produced.
 */
module Reinsert {
  import opened PyStr
  import opened Splitter

  /** What the loop over the placeholder list leaves in `obj`: one `replace` per placeholder, in order. */
  function ReplaceSeq(s: string, ids: seq<string>, res: seq<string>): string
    requires |ids| <= |res|
  {
    if ids == [] then s
    else Replace(ReplaceSeq(s, ids[..|ids| - 1], res), ids[|ids| - 1], res[|ids| - 1])
  }

  /** The replacement loop of `recursiveLook` for a leaf once the results exist. */
  method ReplaceIdentifiers(obj: string, ids: seq<string>, res: seq<string>) returns (r: string)
    requires |ids| <= |res|
    ensures r == ReplaceSeq(obj, ids, res)
  {
    r := obj;
    for i := 0 to |ids|
      invariant r == ReplaceSeq(obj, ids[..i], res)
    {
      assert ids[..i + 1][..i] == ids[..i];
      var identifier := ids[i];
      var result := res[i];
      r := Replace(r, identifier, result);
    }
    assert ids[..|ids|] == ids;
  }

  /** A leaf in which no placeholder occurs comes out of the replacement loop unchanged. */
  lemma {:induction false} ReplaceSeqAbsent(s: string, ids: seq<string>, res: seq<string>)
    requires |ids| <= |res|
    requires forall j :: 0 <= j < |ids| ==> ids[j] != [] && !Occurs(ids[j], s)
    ensures ReplaceSeq(s, ids, res) == s
    decreases |ids|
  {
    if ids != [] {
      var n := |ids| - 1;
      ReplaceSeqAbsent(s, ids[..n], res);
      ReplaceAbsent(s, ids[n], res[n]);
    }
  }

  /** The slot contents after the first `i` replacements: results below `i`, placeholders from `i` on. */
  function Fill(ids: seq<string>, res: seq<string>, i: nat): (f: seq<string>)
    requires |ids| <= |res|
    ensures |f| == |ids| && forall j :: 0 <= j < |ids| ==> f[j] == if j < i then res[j] else ids[j]
  {
    seq(|ids|, (j: int) requires 0 <= j < |ids| => if j < i then res[j] else ids[j])
  }

  ghost predicate AllBracketed(ids: seq<string>) {
    forall j :: 0 <= j < |ids| ==> Bracketed(ids[j])
  }

  /** Inside a bracketed string there is no `[`, and its last character is `]`. */
  lemma BracketedChars(p: string, j: nat)
    requires Bracketed(p) && j < |p|
    ensures 0 < j ==> p[j] != '['
    ensures j < |p| - 1 ==> p[j] != ']'
  {
    if 0 < j < |p| - 1 {
      assert p[1..|p| - 1][j - 1] == p[j];
    }
  }

  /** A bracketed `p` cannot start before a `[` and end after it. */
  lemma NoStraddle(p: string, s: string, n: nat, k: nat)
    requires Bracketed(p) && n < |s| && s[n] == '[' && k < n < k + |p|
    ensures !OccursAt(p, s, k)
  {
    BracketedChars(p, n - k);
    if k + |p| <= |s| {
      assert s[k..k + |p|][n - k] == s[n];
    }
  }

  /** A bracketed `p` does not start inside a different bracketed `b`. */
  lemma NoStartInside(p: string, b: string, z: string, k: nat)
    requires Bracketed(p) && Bracketed(b) && p != b && k < |b|
    ensures !OccursAt(p, b + z, k)
  {
    var s := b + z;
    if k + |p| <= |s| {
      var q := s[k..k + |p|];
      if k > 0 {
        BracketedChars(b, k);
        assert q[0] == b[k];
      } else if |p| < |b| {
        BracketedChars(b, |p| - 1);
        assert q[|p| - 1] == b[|p| - 1];
      } else if |p| > |b| {
        BracketedChars(p, |b| - 1);
        assert q[|b| - 1] == b[|b| - 1];
      } else {
        assert q == b;
      }
    }
  }

  /** An occurrence inside the suffix `y` of `x + y` is one in `x + y`, shifted by `|x|`. */
  lemma NoneBeforeSuffix(p: string, x: string, y: string, n: nat)
    requires NoneBefore(p, x + y, |x| + n)
    ensures NoneBefore(p, y, n)
  {
    forall k: nat | OccursAt(p, y, k) ensures OccursAt(p, x + y, |x| + k) {
      assert (x + y)[|x| + k..|x| + k + |p|] == y[k..k + |p|];
    }
  }

  /**
   * For replacement number `i` (of `p`): every stretch of the text between two
   * placeholders still in place is free of `p`. `w` is the part of the current
   * stretch already passed; slots below `i` already hold their result.
   */
  ghost predicate Clean(p: string, w: string, ps: seq<Piece>, res: seq<string>, i: nat, m: nat)
    requires m + Slots(ps) <= |res|
    decreases |ps|
  {
    if ps == [] then !Occurs(p, w)
    else if ps[0].Lit? then Clean(p, w + ps[0].text, ps[1..], res, i, m)
    else if m < i then Clean(p, w + res[m], ps[1..], res, i, m + 1)
    else !Occurs(p, w) && Clean(p, "", ps[1..], res, i, m + 1)
  }

  /** Every such stretch is a piece of the final text, so a final text without `p` makes every stretch clean. */
  lemma {:induction false} FinalIsClean(p: string, u: string, w: string, ps: seq<Piece>, res: seq<string>, i: nat, m: nat)
    requires m + Slots(ps) <= |res|
    requires !Occurs(p, u + w + Render(ps, res, m))
    ensures Clean(p, w, ps, res, i, m)
    decreases |ps|
  {
    if ps == [] {
      assert u + w + Render(ps, res, m) == u + w;
      AbsentFromParts(p, u, w);
    } else {
      var t := PieceText(ps[0], res, m);
      var m' := if ps[0].Hole? then m + 1 else m;
      var rest := Render(ps[1..], res, m');
      assert u + w + Render(ps, res, m) == u + (w + t) + rest;
      if ps[0].Lit? || m < i {
        FinalIsClean(p, u, w + t, ps[1..], res, i, m');
      } else {
        assert u + (w + t) + rest == (u + w) + (t + rest);
        AbsentFromParts(p, u + w, t + rest);
        AbsentFromParts(p, u, w);
        assert u + (w + t) + rest == (u + w + t) + "" + rest;
        FinalIsClean(p, u + w + t, "", ps[1..], res, i, m');
      }
    }
  }

  /** In a clean stretch, no occurrence of `p` starts in the part `w` already passed. */
  lemma {:induction false} NoStartInStretch(ids: seq<string>, res: seq<string>, i: nat, w: string, ps: seq<Piece>, m: nat)
    requires i < |ids| <= |res| && m + Slots(ps) <= |ids|
    requires AllBracketed(ids)
    requires Clean(ids[i], w, ps, res, i, m)
    ensures NoneBefore(ids[i], w + Render(ps, Fill(ids, res, i), m), |w|)
    decreases |ps|
  {
    var p, f := ids[i], Fill(ids, res, i);
    if ps == [] {
      assert w + Render(ps, f, m) == w;
    } else {
      var t := PieceText(ps[0], f, m);
      var m' := if ps[0].Hole? then m + 1 else m;
      var rest := Render(ps[1..], f, m');
      assert w + Render(ps, f, m) == (w + t) + rest;
      if ps[0].Lit? || m < i {
        NoStartInStretch(ids, res, i, w + t, ps[1..], m');
      } else {
        assert t == ids[m];
        var s := w + t + rest;
        forall k: nat | k < |w| ensures !OccursAt(p, s, k) {
          if k + |p| <= |w| {
            if OccursAt(p, s, k) {
              assert s[k..k + |p|] == w[k..k + |p|];
              assert OccursAt(p, w, k);
            }
          } else {
            assert s[|w|] == t[0] == '[';
            NoStraddle(p, s, |w|, k);
          }
        }
      }
    }
  }

  /** Replacement number `i` turns slot `i` from placeholder into result and changes nothing else. */
  lemma {:induction false} Sweep(ids: seq<string>, res: seq<string>, i: nat, w: string, ps: seq<Piece>, m: nat)
    requires i < |ids| <= |res| && m + Slots(ps) <= |ids|
    requires Distinct(ids) && AllBracketed(ids)
    requires Clean(ids[i], w, ps, res, i, m)
    ensures Replace(Render(ps, Fill(ids, res, i), m), ids[i], res[i]) == Render(ps, Fill(ids, res, i + 1), m)
    decreases |ps|
  {
    var p, r := ids[i], res[i];
    var f, g := Fill(ids, res, i), Fill(ids, res, i + 1);
    if ps != [] {
      var m' := if ps[0].Hole? then m + 1 else m;
      var x := Render(ps[1..], f, m');
      assert Render(ps, f, m) == PieceText(ps[0], f, m) + x;
      assert Render(ps, g, m) == PieceText(ps[0], g, m) + Render(ps[1..], g, m');
      if ps[0].Lit? || m < i {
        var t := PieceText(ps[0], f, m);
        assert t == PieceText(ps[0], g, m);
        NoStartInStretch(ids, res, i, w + t, ps[1..], m');
        assert (w + t) + x == w + (t + x);
        NoneBeforeSuffix(p, w, t + x, |t|);
        ReplaceSkip(t, x, p, r);
        Sweep(ids, res, i, w + t, ps[1..], m');
      } else if m == i {
        ReplaceFront(p, x, r);
        Sweep(ids, res, i, "", ps[1..], m');
      } else {
        var b := ids[m];
        forall k: nat | k < |b| ensures !OccursAt(p, b + x, k) {
          NoStartInside(p, b, x, k);
        }
        ReplaceSkip(b, x, p, r);
        Sweep(ids, res, i, "", ps[1..], m');
      }
    }
  }

  /** After the first `i` replacements, slots below `i` hold their result and the others their placeholder. */
  lemma {:induction false} ReplacePrefix(ps: seq<Piece>, ids: seq<string>, res: seq<string>, n: nat, i: nat)
    requires i <= |ids| <= |res| && n + Slots(ps) <= |ids|
    requires Distinct(ids) && AllBracketed(ids)
    requires forall j :: 0 <= j < i ==> !Occurs(ids[j], Render(ps, res, n))
    ensures ReplaceSeq(Render(ps, ids, n), ids[..i], res) == Render(ps, Fill(ids, res, i), n)
    decreases i
  {
    if i == 0 {
      assert Fill(ids, res, 0) == ids;
    } else {
      ReplacePrefix(ps, ids, res, n, i - 1);
      assert ids[..i][..i - 1] == ids[..i - 1];
      assert "" + "" + Render(ps, res, n) == Render(ps, res, n);
      FinalIsClean(ids[i - 1], "", "", ps, res, i - 1, n);
      Sweep(ids, res, i - 1, "", ps, n);
    }
  }

  /**
   * The placeholder loop restores the slots: rendering with placeholders and
   * then replacing every placeholder by its result is rendering with the
   * results, provided the placeholders are distinct, bracketed and absent
   * from that final text.
   */
  lemma ReplaceRestoresSlots(ps: seq<Piece>, ids: seq<string>, res: seq<string>, n: nat)
    requires |ids| <= |res| && n + Slots(ps) <= |ids|
    requires Distinct(ids) && AllBracketed(ids)
    requires forall j :: 0 <= j < |ids| ==> !Occurs(ids[j], Render(ps, res, n))
    ensures ReplaceSeq(Render(ps, ids, n), ids, res) == Render(ps, res, n)
  {
    ReplacePrefix(ps, ids, res, n, |ids|);
    assert ids[..|ids|] == ids;
    RenderAgree(ps, Fill(ids, res, |ids|), res, n);
  }
}
