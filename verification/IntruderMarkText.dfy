/** What auto-marking marks, on requests written out piece by piece. */
module IntruderMarkText {
  import opened Bytes
  import opened Ascii
  import opened Letters
  import opened HttpMessage
  import opened IntruderTemplate
  import opened IntruderMark

  /** A piece of a query, a form or a cookie. */
  datatype Piece = Pair(name: bytes, value: bytes) | Bare(text: bytes)

  predicate ValidPiece(p: Piece, sep: char) {
    match p
    case Pair(name, value) => '=' !in name && sep !in name && sep !in value
    case Bare(text) => '=' !in text && sep !in text
  }

  predicate ValidPieces(ps: seq<Piece>, sep: char) {
    ps != [] && forall i :: 0 <= i < |ps| ==> ValidPiece(ps[i], sep)
  }

  function PieceText(p: Piece): bytes {
    match p
    case Pair(name, value) => name + "=" + value
    case Bare(text) => text
  }

  /** A value that is not empty is marked. */
  function PieceMarked(p: Piece): bytes {
    if p.Pair? && p.value != "" then p.name + "=" + [MARKER] + p.value + [MARKER] else PieceText(p)
  }

  function PieceValues(p: Piece): seq<bytes> { if p.Pair? && p.value != "" then [p.value] else [] }

  function Texts(ps: seq<Piece>): seq<bytes> { if ps == [] then [] else [PieceText(ps[0])] + Texts(ps[1..]) }

  function Markeds(ps: seq<Piece>): seq<bytes> { if ps == [] then [] else [PieceMarked(ps[0])] + Markeds(ps[1..]) }

  function Values(ps: seq<Piece>): seq<bytes> { if ps == [] then [] else PieceValues(ps[0]) + Values(ps[1..]) }

  function BlobText(ps: seq<Piece>, sep: char): bytes { Join(Texts(ps), [sep]) }

  function BlobMarked(ps: seq<Piece>, sep: char): bytes { Join(Markeds(ps), [sep]) }

  lemma PairCut(name: bytes, value: bytes)
    requires '=' !in name
    ensures var s := name + "=" + value; Find(s, "=") == |name| && s[..|name|] == name && s[|name| + 1..] == value
  {
    var s := name + "=" + value;
    assert s[..|name|] == name;
    FindByteIs(s, '=', |name|);
  }

  lemma PieceMarks(p: Piece, sep: char)
    requires ValidPiece(p, sep)
    ensures MarkPair(PieceText(p)) == PieceMarked(p) && PairValues(PieceText(p)) == PieceValues(p)
  {
    match p {
      case Pair(name, value) =>
        PairCut(name, value);
        assert name + "=" + Quoted(value) == name + "=" + [MARKER] + value + [MARKER];
      case Bare(text) => FindByte(text, '=');
    }
  }

  lemma {:induction false} PiecesMark(ps: seq<Piece>, sep: char)
    requires forall i :: 0 <= i < |ps| ==> ValidPiece(ps[i], sep)
    ensures MarkAll(Texts(ps)) == Markeds(ps) && AllValues(Texts(ps)) == Values(ps)
  {
    if ps != [] {
      assert ValidPiece(ps[0], sep);
      PieceMarks(ps[0], sep);
      PiecesMark(ps[1..], sep);
      assert Texts(ps)[1..] == Texts(ps[1..]);
      hide ValidPiece, PieceText, PieceMarked, PieceValues, MarkPair, PairValues;
    }
  }

  lemma {:induction false} TextsFree(ps: seq<Piece>, sep: char)
    requires (forall i :: 0 <= i < |ps| ==> ValidPiece(ps[i], sep)) && sep != '='
    ensures |Texts(ps)| == |ps| && forall i :: 0 <= i < |ps| ==> sep !in Texts(ps)[i]
  {
    if ps != [] {
      assert ValidPiece(ps[0], sep);
      assert sep !in PieceText(ps[0]);
      hide ValidPiece, PieceText;
      TextsFree(ps[1..], sep);
    }
  }

  /** A blob of pieces is marked piece by piece. */
  lemma BlobMarks(ps: seq<Piece>, sep: char)
    requires ValidPieces(ps, sep) && sep != '='
    ensures MarkBlob(BlobText(ps, sep), [sep]) == BlobMarked(ps, sep)
    ensures AllValues(Split(BlobText(ps, sep), [sep])) == Values(ps)
  {
    TextsFree(ps, sep);
    PiecesMark(ps, sep);
    var texts := Texts(ps);
    forall l | l in texts ensures !Contains(l, [sep]) {
      var i :| 0 <= i < |texts| && texts[i] == l;
      FindByte(l, sep);
    }
    SeparatorsUnbordered(sep);
    SplitJoin(texts, [sep]);
  }

  /** Every text is such a blob. */
  lemma {:induction false} PiecesOf(parts: seq<bytes>, sep: char) returns (ps: seq<Piece>)
    requires forall i :: 0 <= i < |parts| ==> sep !in parts[i]
    ensures |ps| == |parts| && Texts(ps) == parts && forall i :: 0 <= i < |ps| ==> ValidPiece(ps[i], sep)
  {
    if parts == [] { ps := []; }
    else {
      var t := parts[0];
      var tl := parts[1..];
      assert forall i :: 0 <= i < |tl| ==> tl[i] == parts[i + 1];
      var rest := PiecesOf(tl, sep);
      var p := PieceOf(t, sep);
      hide PieceText, ValidPiece;
      ps := [p] + rest;
      assert ps[1..] == rest;
    }
  }

  lemma PieceOf(t: bytes, sep: char) returns (p: Piece)
    requires sep !in t
    ensures ValidPiece(p, sep) && PieceText(p) == t
  {
    FindByte(t, '=');
    var i := Find(t, "=");
    p := if i == -1 then Bare(t) else Pair(t[..i], t[i + 1..]);
  }

  lemma BlobSpelt(blob: bytes, sep: char) returns (ps: seq<Piece>)
    requires sep != '='
    ensures ValidPieces(ps, sep) && BlobText(ps, sep) == blob
  {
    SplitPieces(blob, [sep]);
    JoinSplit(blob, [sep]);
    var parts := Split(blob, [sep]);
    forall i | 0 <= i < |parts| ensures sep !in parts[i] {
      assert parts[i] in parts;
      FindByte(parts[i], sep);
    }
    ps := PiecesOf(parts, sep);
  }

  // ------------------------------------------------------------------ requests

  /** The query's values are marked, and nothing before the question mark. */
  lemma TargetMarks(path: bytes, ps: seq<Piece>)
    requires '?' !in path && ValidPieces(ps, '&')
    ensures MarkTarget(path) == path && TargetValues(path) == []
    ensures MarkTarget(path + "?" + BlobText(ps, '&')) == path + "?" + BlobMarked(ps, '&')
    ensures TargetValues(path + "?" + BlobText(ps, '&')) == Values(ps)
  {
    BlobMarks(ps, '&');
    assert "&" == ['&'];
    hide BlobText, BlobMarked, MarkBlob, AllValues, Split, Values, ValidPieces;
    QueryCut(path, BlobText(ps, '&'));
  }

  lemma QueryCut(path: bytes, query: bytes)
    requires '?' !in path
    ensures Find(path, "?") == -1
    ensures var t := path + "?" + query; Find(t, "?") == |path| && t[..|path|] == path && t[|path| + 1..] == query
  {
    var t := path + "?" + query;
    FindByte(path, '?');
    assert t[..|path|] == path && t[|path| + 1..] == query;
    FindByteIs(t, '?', |path|);
  }

  /** A Cookie field's values are marked; any other field is left. */
  lemma CookieMarks(f: Field, ps: seq<Piece>)
    requires ValidPieces(ps, ';') && f.value == BlobText(ps, ';')
    ensures SameText(f.name, "Cookie") && f.value != [] ==>
      MarkField(f) == Field(f.name, BlobMarked(ps, ';')) && FieldValues(f) == Values(ps)
    ensures !SameText(f.name, "Cookie") || f.value == [] ==> MarkField(f) == f && FieldValues(f) == []
  {
    LowerSame(f.name, "Cookie");
    assert Lower("Cookie") == "cookie" && ";" == [';'];
    BlobMarks(ps, ';');
    hide BlobText, BlobMarked, Lower, SameText, MarkBlob, AllValues, Split;
  }

  /** The first Content-Type says the body is a form. */
  predicate FormTyped(hs: Headers) {
    exists k :: 0 <= k < |hs| && IsFirst(hs, "Content-Type", k) && Mentions(hs[k].value, "x-www-form-urlencoded")
  }

  lemma TypeFirst(hs: Headers)
    ensures FormTyped(hs) <==> var t := GetHeader(hs, "content-type");
        t.Some? && Mentions(t.value, "x-www-form-urlencoded")
  {
    assert Lower("Content-Type") == Lower("content-type");
    var k := GetHeaderFirst(hs, "Content-Type");
    SameHeader(hs, "Content-Type", "content-type");
    hide Lower, Mentions, SameText;
  }

  lemma {:induction false} SameHeader(hs: Headers, name: bytes, other: bytes)
    requires Lower(name) == Lower(other)
    ensures GetAll(hs, name) == GetAll(hs, other)
  {
    hide Lower;
    if hs != [] { SameHeader(hs[1..], name, other); }
  }

  lemma {:induction false} CookiesApart(hs: Headers)
    ensures GetAll(MarkFields(hs), "content-type") == GetAll(hs, "content-type")
  {
    if hs != [] {
      CookiesApart(hs[1..]);
      assert MarkFields(hs)[1..] == MarkFields(hs[1..]);
      assert Lower("content-type") == "content-type" != "cookie";
      hide Lower, MarkBlob;
    }
  }

  /** A body is marked exactly when it is a form's; its values come after the query's and the cookies'. */
  lemma BodyMarkedIf(r: Request, ps: seq<Piece>)
    requires ValidPieces(ps, '&') && r.body == BlobText(ps, '&')
    ensures var form := r.body != [] && FormTyped(r.headers);
      && MarkRequest(r).body == (if form then BlobMarked(ps, '&') else r.body)
      && RequestValues(r)
         == TargetValues(r.target) + FieldsValues(r.headers) + if form then Values(ps) else []
  {
    FormIs(r.headers, r.body);
    BlobMarks(ps, '&');
    assert "&" == ['&'];
    hide BlobText, BlobMarked, MarkBlob, AllValues, Split, FormTyped, IsForm, MarkFields, FieldsValues, TargetValues,
        MarkTarget;
  }

  lemma FormIs(hs: Headers, body: bytes)
    ensures IsForm(MarkFields(hs), body) <==> body != [] && FormTyped(hs)
  {
    CookiesApart(hs);
    TypeFirst(hs);
    assert GetHeader(MarkFields(hs), "content-type") == GetHeader(hs, "content-type") by { hide MarkFields; }
    hide FormTyped, MarkFields, Mentions, Lower, Contains, GetHeader;
    FormWord();
    var t := GetHeader(hs, "content-type");
    if t.Some? { MentionsLower(t.value, "x-www-form-urlencoded"); }
  }

  lemma FormWord()
    ensures IsLower("x-www-form-urlencoded")
  {}
}
