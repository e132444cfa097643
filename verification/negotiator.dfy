/**
 * `MessagePackResponseNegotiator`: the server-side test of whether a
 * request's accepted media type asks for MessagePack, and the guard and
 * content type of the response it then writes.
 *
 * The media type is taken as the text of the accept header value; the
 * header's own parsing and printing is not part of this model.
 */
module ResponseNegotiator {
  import opened Wrappers
  import opened Model

  // ---------------------------------------------------------------------
  // String.Split(char)
  // ---------------------------------------------------------------------

  /** The pieces joined back with the separator between each two. */
  function Join(parts: seq<string>, sep: char): string
    requires parts != []
    decreases |parts|
  {
    if |parts| == 1 then parts[0] else parts[0] + [sep] + Join(parts[1..], sep)
  }

  predicate Free(s: string, sep: char) {
    forall i | 0 <= i < |s| :: s[i] != sep
  }

  /**
   * `Split(sep)`: the text cut at every separator.  Empty pieces are kept,
   * so `n` separators give `n + 1` pieces.
   */
  function Split(s: string, sep: char): (parts: seq<string>)
    ensures parts != []
    ensures forall k | 0 <= k < |parts| :: Free(parts[k], sep)
    ensures Join(parts, sep) == s
    decreases |s|
  {
    if s == [] then [[]]
    else
      var rest := Split(s[1..], sep);
      if s[0] == sep then
        assert Join([[]] + rest, sep) == [sep] + Join(rest, sep) by {
          assert ([[]] + rest)[1..] == rest;
        }
        assert s == [s[0]] + s[1..];
        [[]] + rest
      else
        var parts := [[s[0]] + rest[0]] + rest[1..];
        assert Join(parts, sep) == s by {
          if |rest| > 1 {
            assert parts[1..] == rest[1..];
            assert Join(rest, sep) == rest[0] + [sep] + Join(rest[1..], sep);
          }
          assert s == [s[0]] + s[1..];
        }
        assert forall k | 1 <= k < |parts| :: parts[k] == rest[k];
        parts
  }

  /** Splitting undoes joining pieces that hold no separator. */
  lemma {:induction false} SplitJoin(parts: seq<string>, sep: char)
    requires parts != []
    requires forall k | 0 <= k < |parts| :: Free(parts[k], sep)
    ensures Split(Join(parts, sep), sep) == parts
    decreases |parts|, |parts[0]|
  {
    var s := Join(parts, sep);
    if |parts| == 1 {
      SplitFree(parts[0], sep);
    } else if parts[0] == [] {
      assert s == [sep] + Join(parts[1..], sep);
      assert s[1..] == Join(parts[1..], sep);
      SplitJoin(parts[1..], sep);
      assert [[]] + parts[1..] == parts;
    } else {
      var shorter := [parts[0][1..]] + parts[1..];
      assert shorter[1..] == parts[1..];
      assert Join(shorter, sep) == s[1..];
      assert Free(shorter[0], sep);
      assert forall k | 1 <= k < |shorter| :: shorter[k] == parts[k];
      SplitJoin(shorter, sep);
      assert s[0] == parts[0][0] && s[0] != sep;
      assert [s[0]] + parts[0][1..] == parts[0];
      assert [[s[0]] + parts[0][1..]] + parts[1..] == parts;
    }
  }

  /** Text without a separator is one piece. */
  lemma {:induction false} SplitFree(s: string, sep: char)
    requires Free(s, sep)
    ensures Split(s, sep) == [s]
    decreases |s|
  {
    if s != [] {
      SplitFree(s[1..], sep);
      assert [s[0]] + s[1..] == s;
    }
  }

  // ---------------------------------------------------------------------
  // String.Trim()
  // ---------------------------------------------------------------------

  /** `Char.IsWhiteSpace`: the Unicode space separators, line and paragraph separators, and the controls U+0009 to U+000D and U+0085. */
  predicate IsWhiteSpace(c: char) {
    var n := c as int;
    || n == 0x20 || (0x09 <= n <= 0x0D) || n == 0x85 || n == 0xA0 || n == 0x1680
    || (0x2000 <= n <= 0x200A) || n == 0x2028 || n == 0x2029 || n == 0x202F
    || n == 0x205F || n == 0x3000
  }

  predicate AllWhite(s: string) {
    forall i | 0 <= i < |s| :: IsWhiteSpace(s[i])
  }

  /** Text that a trim leaves as it is: empty, or not starting or ending in white space. */
  predicate Trimmed(s: string) {
    s == [] || (!IsWhiteSpace(s[0]) && !IsWhiteSpace(s[|s| - 1]))
  }

  function TrimStart(s: string): (r: string)
    ensures |r| <= |s| && r == s[|s| - |r|..]
    ensures AllWhite(s[..|s| - |r|])
    ensures r == [] || !IsWhiteSpace(r[0])
    decreases |s|
  {
    if s != [] && IsWhiteSpace(s[0]) then
      var r := TrimStart(s[1..]);
      assert s[..|s| - |r|] == [s[0]] + s[1..][..|s[1..]| - |r|];
      r
    else s
  }

  function TrimEnd(s: string): (r: string)
    ensures |r| <= |s| && r == s[..|r|]
    ensures AllWhite(s[|r|..])
    ensures r == [] || !IsWhiteSpace(r[|r| - 1])
    decreases |s|
  {
    if s != [] && IsWhiteSpace(s[|s| - 1]) then
      var r := TrimEnd(s[..|s| - 1]);
      assert s[|r|..] == s[..|s| - 1][|r|..] + [s[|s| - 1]];
      r
    else s
  }

  /** `Trim()`: the text with white space removed from both ends. */
  function Trim(s: string): (r: string)
    ensures Trimmed(r)
    ensures |r| <= |s|
  {
    var t := TrimStart(s);
    var r := TrimEnd(t);
    assert r != [] ==> r[0] == t[0];
    r
  }

  /** `r` sits in `s` at `i` with only white space before and after it. */
  predicate Padded(s: string, r: string, i: nat) {
    && i + |r| <= |s|
    && s[i..i + |r|] == r
    && AllWhite(s[..i])
    && AllWhite(s[i + |r|..])
  }

  /** What `Trim` removes is white space, from the two ends only. */
  lemma TrimRemovesWhiteSpace(s: string)
    ensures exists i: nat :: Padded(s, Trim(s), i)
  {
    var t, r := TrimStart(s), Trim(s);
    assert r == TrimEnd(t);
    var i := Nested(s, t, r);
  }

  /**
   * White space, then `t`; `t` is `r`, then white space: so `s` is `r`
   * between white space, and `i` is where `r` starts.
   */
  lemma Nested(s: string, t: string, r: string) returns (i: nat)
    requires |t| <= |s| && t == s[|s| - |t|..] && AllWhite(s[..|s| - |t|])
    requires |r| <= |t| && r == t[..|r|] && AllWhite(t[|r|..])
    ensures i == |s| - |t| && Padded(s, r, i)
  {
    i := |s| - |t|;
    forall k | 0 <= k < |r| ensures s[i..i + |r|][k] == r[k] {
      assert t[k] == s[i + k];
    }
    forall k | 0 <= k < |t| - |r| ensures s[i + |r|..][k] == t[|r|..][k] {
      assert t[|r| + k] == s[i + |r| + k];
    }
  }

  lemma {:induction false} TrimStartPadded(a: string, b: string)
    requires AllWhite(a)
    requires b == [] || !IsWhiteSpace(b[0])
    ensures TrimStart(a + b) == b
    decreases |a|
  {
    if a != [] {
      assert (a + b)[1..] == a[1..] + b;
      TrimStartPadded(a[1..], b);
    } else {
      assert a + b == b;
    }
  }

  lemma {:induction false} TrimEndPadded(b: string, c: string)
    requires AllWhite(c)
    requires b == [] || !IsWhiteSpace(b[|b| - 1])
    ensures TrimEnd(b + c) == b
    decreases |c|
  {
    if c != [] {
      var l := |c| - 1;
      assert (b + c)[..|b + c| - 1] == b + c[..l];
      TrimEndPadded(b, c[..l]);
    } else {
      assert b + c == b;
    }
  }

  /** Trimming removes exactly the white space around text that is already trimmed. */
  lemma TrimPadded(a: string, b: string, c: string)
    requires AllWhite(a) && AllWhite(c) && Trimmed(b)
    ensures Trim(a + b + c) == b
  {
    if b == [] {
      assert a + b + c == a + c;
      TrimStartPadded(a + c, []);
      assert a + c + [] == a + c;
      TrimEndPadded([], []);
    } else {
      assert a + b + c == a + (b + c);
      TrimStartPadded(a, b + c);
      TrimEndPadded(b, c);
    }
  }

  /** Trimming twice is trimming once. */
  lemma TrimIdempotent(s: string)
    ensures Trim(Trim(s)) == Trim(s)
  {
    var r := Trim(s);
    assert [] + r + [] == r;
    TrimPadded([], r, []);
  }

  // ---------------------------------------------------------------------
  // CanHandle
  // ---------------------------------------------------------------------

  const MediaType: string := "application/msgpack"
  const Standard: string := "ecss-e-tm-10-25"
  const Version: string := "version=1.0.0"

  /** The content type `Handle` writes on the response: the three pieces, each after "; ". */
  const ContentType: string := MediaType + "; " + Standard + "; " + Version

  /**
   * `CanHandle`: the text is cut at ';' and the first three pieces,
   * trimmed, are compared in order; the comparison stops at the first
   * mismatch, and reading a piece that is not there is an
   * index-out-of-range error.
   */
  function CanHandle(mediaType: string): (r: Result<bool>)
    ensures var parts := Split(mediaType, ';');
            && (r == Ok(true) <==>
                  |parts| >= 3 && Trim(parts[0]) == MediaType && Trim(parts[1]) == Standard
                  && Trim(parts[2]) == Version)
            && (Trim(parts[0]) != MediaType ==> r == Ok(false))
            && (r.Err? <==>
                  Trim(parts[0]) == MediaType
                  && (|parts| == 1 || (Trim(parts[1]) == Standard && |parts| == 2)))
            && (r.Err? ==> r.error == IndexOutOfRange)
  {
    var parts := Split(mediaType, ';');
    if Trim(parts[0]) != MediaType then Ok(false)
    else if |parts| < 2 then Err(IndexOutOfRange)
    else if Trim(parts[1]) != Standard then Ok(false)
    else if |parts| < 3 then Err(IndexOutOfRange)
    else Ok(Trim(parts[2]) == Version)
  }

  /**
   * A header built from pieces without ';' is accepted exactly when its
   * first three pieces, trimmed, are the MessagePack media type, the
   * standard and the version; pieces after the third do not matter.
   */
  lemma AcceptsComposed(parts: seq<string>)
    requires |parts| >= 3
    requires forall k | 0 <= k < |parts| :: Free(parts[k], ';')
    ensures CanHandle(Join(parts, ';'))
            == Ok(Trim(parts[0]) == MediaType && Trim(parts[1]) == Standard && Trim(parts[2]) == Version)
  {
    SplitJoin(parts, ';');
  }

  /** Splitting text joined at one more separator joins the pieces of each side. */
  lemma {:induction false} SplitAppend(s: string, t: string, sep: char)
    ensures Split(s + [sep] + t, sep) == Split(s, sep) + Split(t, sep)
  {
    var ps, pt := Split(s, sep), Split(t, sep);
    JoinAppend(ps, pt, sep);
    forall k | 0 <= k < |ps + pt| ensures Free((ps + pt)[k], sep) {
      if k >= |ps| { assert (ps + pt)[k] == pt[k - |ps|]; }
    }
    SplitJoin(ps + pt, sep);
  }

  lemma {:induction false} JoinAppend(ps: seq<string>, pt: seq<string>, sep: char)
    requires ps != [] && pt != []
    ensures Join(ps + pt, sep) == Join(ps, sep) + [sep] + Join(pt, sep)
    decreases |ps|
  {
    if |ps| == 1 {
      assert (ps + pt)[1..] == pt;
    } else {
      assert (ps + pt)[1..] == ps[1..] + pt;
      JoinAppend(ps[1..], pt, sep);
    }
  }

  /** Once three pieces are present, anything appended after another ';' is ignored. */
  lemma ExtraSegmentsIgnored(mediaType: string, extra: string)
    requires |Split(mediaType, ';')| >= 3
    ensures CanHandle(mediaType + ";" + extra) == CanHandle(mediaType)
  {
    SplitAppend(mediaType, extra, ';');
    var ps := Split(mediaType, ';');
    var all := Split(mediaType + ";" + extra, ';');
    assert all[0] == ps[0] && all[1] == ps[1] && all[2] == ps[2];
  }

  /** White space around each of the three pieces does not change the answer. */
  lemma WhiteSpaceIgnored(a0: string, a1: string, a2: string, b0: string, b1: string, b2: string)
    requires AllWhite(a0) && AllWhite(a1) && AllWhite(a2)
    requires AllWhite(b0) && AllWhite(b1) && AllWhite(b2)
    ensures CanHandle(Join([a0 + MediaType + b0, a1 + Standard + b1, a2 + Version + b2], ';')) == Ok(true)
  {
    var parts := [a0 + MediaType + b0, a1 + Standard + b1, a2 + Version + b2];
    WhiteFree(a0); WhiteFree(a1); WhiteFree(a2);
    WhiteFree(b0); WhiteFree(b1); WhiteFree(b2);
    forall k | 0 <= k < 3 ensures Free(parts[k], ';') {
    }
    TrimPadded(a0, MediaType, b0);
    TrimPadded(a1, Standard, b1);
    TrimPadded(a2, Version, b2);
    AcceptsComposed(parts);
  }

  lemma WhiteFree(s: string)
    requires AllWhite(s)
    ensures Free(s, ';')
  {
    forall i | 0 <= i < |s| ensures s[i] != ';' {
      assert IsWhiteSpace(s[i]);
    }
  }

  /** A header whose first piece is something else is refused, whatever follows. */
  lemma OtherMediaTypeRefused(first: string, rest: string)
    requires Free(first, ';') && Trim(first) != MediaType
    ensures CanHandle(first + ";" + rest) == Ok(false)
    ensures CanHandle(first) == Ok(false)
  {
    SplitAppend(first, rest, ';');
    SplitFree(first, ';');
  }

  /**
   * `CanHandle` as evidently intended: a header with fewer than three
   * pieces is one the negotiator cannot handle, not an error.  It accepts
   * exactly what the code as written accepts and refuses everything else.
   */
  function CanHandleGuarded(mediaType: string): (r: bool)
    ensures r <==> CanHandle(mediaType) == Ok(true)
    ensures CanHandle(mediaType).Ok? ==> r == CanHandle(mediaType).value
  {
    var parts := Split(mediaType, ';');
    |parts| >= 3 && Trim(parts[0]) == MediaType && Trim(parts[1]) == Standard && Trim(parts[2]) == Version
  }

  /**
   * A header that is the MessagePack media type alone, with no ';', makes
   * `CanHandle` read a second piece that is not there; the guarded check
   * refuses it.
   */
  lemma MediaTypeAloneRefused(first: string)
    requires Free(first, ';') && Trim(first) == MediaType
    ensures !CanHandleGuarded(first)
    ensures CanHandle(first) == Err(IndexOutOfRange)
  {
    SplitFree(first, ';');
  }

  /** Spelled out, the content type is the text the server writes. */
  lemma ContentTypeText()
    ensures ContentType == "application/msgpack; ecss-e-tm-10-25; version=1.0.0"
  {
  }

  /** The content type `Handle` writes is one `CanHandle` accepts. */
  lemma ContentTypeAccepted()
    ensures CanHandle(ContentType) == Ok(true)
  {
    var a, b, c := [] + MediaType + [], " " + Standard + [], " " + Version + [];
    assert a == MediaType;
    assert b == " " + Standard;
    assert c == " " + Version;
    assert [a, b, c][1..] == [b, c];
    assert [b, c][1..] == [c];
    assert Join([b, c], ';') == b + [';'] + c;
    assert Join([a, b, c], ';') == MediaType + [';'] + (" " + Standard + [';'] + " " + Version);
    assert "; " == [';'] + " ";
    assert MediaType + [';'] + (" " + Standard + [';'] + " " + Version) == ContentType;
    assert AllWhite(" ") && AllWhite([]);
    WhiteSpaceIgnored([], " ", " ", [], [], []);
  }

  // ---------------------------------------------------------------------
  // Handle
  // ---------------------------------------------------------------------

  /** The model handed to `Handle<T>`: a list of Things, null, or an object of another type. */
  datatype ResponseModel = ThingList(things: seq<Thing>) | NullModel | OtherModel(typeName: string)

  /** What `Handle` puts on the response: its content type and the Things to serialize. */
  datatype Response = Response(contentType: string, body: seq<Thing>)

  /**
   * `Handle`: anything but a list of Things is not supported; a list is
   * answered with the MessagePack content type and serialized as given.
   */
  function Handle(model: ResponseModel): (r: Result<Response>)
    ensures r.Ok? <==> model.ThingList?
    ensures r.Err? ==> r.error == NotSupported("Only List<Thing> is supported")
    ensures r.Ok? ==> r.value.body == model.things && CanHandleGuarded(r.value.contentType)
  {
    ContentTypeAccepted();
    match model
    case ThingList(things) => Ok(Response(ContentType, things))
    case _ => Err(NotSupported("Only List<Thing> is supported"))
  }
}
