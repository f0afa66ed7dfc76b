/**
 * The _append closure of build_poly_ops_expression as an object: the
 * running expression and the two segment lists it updates, with the
 * bookkeeping that ties them to the displayed row.  The group loop of
 * build_add_sub_expression keeps the same three values (expr, segments,
 * latex_segments) and goes through the same Push.
 */
module Composing {
  import opened Polynomials
  import opened Rendering
  import opened Display

  /**
   * The state _append closes over: the running expression and the two
   * segment lists.  Of the LaTeX segments only the prefixes are kept.  The
   * ghost fields record, per segment, the sign and the piece it shows, the
   * polynomial added and the text given.
   */
  class Composer {
    var expr: Poly
    var segments: seq<string>
    var latexPrefixes: seq<string>
    ghost var shown: seq<Segment>
    ghost var parts: seq<Poly>
    ghost var bodies: seq<string>

    /** The fields are in step: see Tracks. */
    ghost predicate Valid()
      reads this
    {
      Tracks(expr, segments, latexPrefixes, shown, parts, bodies)
    }

    constructor ()
      ensures Valid()
      ensures expr == [] && segments == [] && latexPrefixes == []
      ensures shown == [] && parts == [] && bodies == []
    {
      expr, segments, latexPrefixes := [], [], [];
      shown, parts, bodies := [], [], [];
    }

    /**
     * _append(piece, text, latex_text, sign): expr += sign * piece; both
     * lists get the prefix, none on the first segment and " + " or " - "
     * by the sign after that, the text list followed by text.
     */
    method Append(piece: Poly, text: string, sign: int, ghost display: Piece)
      requires Valid()
      modifies this
      ensures Valid()
      ensures expr == Add(old(expr), Signed(sign, piece))
      ensures segments == old(segments) + [Prefix(old(segments) == [], sign) + text]
      ensures latexPrefixes == old(latexPrefixes) + [Prefix(old(segments) == [], sign)]
      ensures shown == old(shown) + [Segment(sign, display)]
      ensures parts == old(parts) + [piece]
      ensures bodies == old(bodies) + [text]
    {
      var prefix := Prefix(segments == [], sign);
      ghost var s := Segment(sign, display);
      var e, ss, ps := Add(expr, Signed(sign, piece)), segments + [prefix + text], latexPrefixes + [prefix];
      ghost var sh, pa, bo := shown + [s], parts + [piece], bodies + [text];
      TracksSnoc(expr, segments, latexPrefixes, shown, parts, bodies, s, piece, text, prefix);
      assert Tracks(e, ss, ps, sh, pa, bo);
      expr, segments, latexPrefixes := e, ss, ps;
      shown, parts, bodies := sh, pa, bo;
    }
  }

  /**
   * expr is the signed sum of the pieces appended so far, and segment i
   * of both lists starts with the prefix its sign calls for.
   */
  ghost predicate Tracks(expr: Poly, segments: seq<string>, latexPrefixes: seq<string>,
                         shown: seq<Segment>, parts: seq<Poly>, bodies: seq<string>)
  {
    && |segments| == |latexPrefixes| == |shown| == |parts| == |bodies|
    && Sums(expr, shown, parts)
    && (forall i :: 0 <= i < |shown| ==> latexPrefixes[i] == Prefix(i == 0, shown[i].sign))
    && (forall i :: 0 <= i < |shown| ==> segments[i] == latexPrefixes[i] + bodies[i])
  }

  ghost predicate Sums(expr: Poly, shown: seq<Segment>, parts: seq<Poly>)
    requires |shown| == |parts|
  {
    expr == SignedSum(shown, parts)
  }

  /** One _append step keeps the bookkeeping in step. */
  lemma TracksSnoc(expr: Poly, segments: seq<string>, latexPrefixes: seq<string>,
                   shown: seq<Segment>, parts: seq<Poly>, bodies: seq<string>,
                   s: Segment, piece: Poly, text: string, prefix: string)
    requires Tracks(expr, segments, latexPrefixes, shown, parts, bodies)
    requires prefix == Prefix(segments == [], s.sign)
    ensures Tracks(Add(expr, Signed(s.sign, piece)), segments + [prefix + text], latexPrefixes + [prefix],
                   shown + [s], parts + [piece], bodies + [text])
  {
    SignedSumSnoc(shown, parts, s, piece);
    PrefixesSnoc(latexPrefixes, shown, s);
    SegmentsSnoc(segments, latexPrefixes, bodies, prefix, text);
  }

  lemma PrefixesSnoc(prefixes: seq<string>, shown: seq<Segment>, s: Segment)
    requires |prefixes| == |shown|
    requires forall i :: 0 <= i < |shown| ==> prefixes[i] == Prefix(i == 0, shown[i].sign)
    ensures var ps, ss := prefixes + [Prefix(shown == [], s.sign)], shown + [s];
      forall i :: 0 <= i < |ss| ==> ps[i] == Prefix(i == 0, ss[i].sign)
  {
  }

  lemma SegmentsSnoc(segments: seq<string>, prefixes: seq<string>, bodies: seq<string>, prefix: string, text: string)
    requires |segments| == |prefixes| == |bodies|
    requires forall i :: 0 <= i < |segments| ==> segments[i] == prefixes[i] + bodies[i]
    ensures var ss, ps, bs := segments + [prefix + text], prefixes + [prefix], bodies + [text];
      forall i :: 0 <= i < |ss| ==> ss[i] == ps[i] + bs[i]
  {
  }

  /** The composer's row shows its expression, and its joined text is the row's text. */
  ghost predicate Consistent(c: Composer, vars: seq<nat>)
    reads c
  {
    && c.Valid()
    && VarsOk(vars)
    && SegmentsOk(c.shown, |vars|)
    && Shows(c.shown, c.parts, c.expr)
    && Valid(c.expr, |vars|)
    && Concat(c.segments) == SegmentsText(c.shown, vars)
  }

  /** The text of piece, appended with value and sign. */
  method Push(c: Composer, value: Poly, piece: Piece, sign: int, vars: seq<nat>)
    requires Consistent(c, vars)
    requires PieceOk(piece, |vars|) && Denotes(piece, value) && Valid(value, |vars|)
    requires sign == 1 || sign == -1
    requires c.shown == [] ==> sign == 1
    modifies c
    ensures Consistent(c, vars)
    ensures c.shown == old(c.shown) + [Segment(sign, piece)]
    ensures c.parts == old(c.parts) + [value]
  {
    var text := ShowPiece(piece, vars);
    ghost var s := Segment(sign, piece);
    ghost var prefix := Prefix(c.segments == [], sign);
    assert c.segments == [] <==> c.shown == [];
    ShowsSnoc(c.shown, c.parts, c.expr, s, value, vars);
    ConcatSnoc(c.segments, prefix + text);
    Associative(Concat(c.segments), prefix, text);
    SignedValid(sign, value, |vars|);
    AddValid(c.expr, Signed(sign, value), |vars|);
    c.Append(value, text, sign, piece);
  }
}
