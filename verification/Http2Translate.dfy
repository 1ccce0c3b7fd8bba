/** Translating requests between HTTP/2 fields and HTTP/1.1 bytes.
    RFC 9113 section 8.2.2 names the connection-specific fields that are dropped. */
module Http2Translate {
  import opened Bytes
  import opened Ascii
  import opened Letters
  import opened HttpMessage
  import opened HttpReader
  import opened Http2Text

  predicate ConnectionSpecific(lower: bytes) {
    lower == "connection" || lower == "keep-alive" || lower == "proxy-connection"
    || lower == "transfer-encoding" || lower == "upgrade" || lower == "proxy-authenticate"
  }

  // ------------------------------------------------------- HTTP/2 to HTTP/1.1

  /** Regular fields carried over; a Host field only when none has been seen. */
  function Carried(hs: Headers, seenHost: bool): Headers {
    if hs == [] then []
    else
      var lower := Lower(hs[0].name);
      if ConnectionSpecific(lower) || (lower == "host" && seenHost) then Carried(hs[1..], seenHost)
      else [hs[0]] + Carried(hs[1..], seenHost || lower == "host")
  }

  lemma CarriedStep(hs: Headers, k: nat, seenHost: bool)
    requires k < |hs|
    ensures var lower := Lower(hs[k].name);
      Carried(hs[k..], seenHost) ==
        if ConnectionSpecific(lower) || (lower == "host" && seenHost) then Carried(hs[k + 1..], seenHost)
        else [hs[k]] + Carried(hs[k + 1..], seenHost || lower == "host")
  {
    Next(hs, k);
    hide ConnectionSpecific;
  }

  function HostField(hs: Headers): Headers {
    var a := Get(Pseudo(hs), ":authority");
    if a.Some? && a.value != [] then [Field("Host", a.value)] else []
  }

  function H1Fields(hs: Headers): Headers { HostField(hs) + Carried(Regular(hs), HostField(hs) != []) }

  function H1Request(hs: Headers, body: bytes): Request {
    Request(Method(hs), Path(hs), "HTTP/1.1",
            if body == [] then H1Fields(hs) else WithHeader(H1Fields(hs), "Content-Length", Decimal(|body|)), body)
  }

  method ToH1Request(hs: Headers, body: bytes) returns (raw: bytes)
    ensures raw == Raw(H1Request(hs, body))
  {
    var authority := Get(Pseudo(hs), ":authority");
    var out: Headers := [];
    if authority.Some? && authority.value != [] { out := out + [Field("Host", authority.value)]; }
    var seenHost := authority.Some? && authority.value != [];
    var regular := Regular(hs);
    for k := 0 to |regular|
      invariant H1Fields(hs) == out + Carried(regular[k..], seenHost)
    {
      hide ConnectionSpecific, Pseudo, Regular, Carried, H1Fields, Lower;
      CarriedStep(regular, k, seenHost);
      var f := regular[k];
      Assoc(out, [f], Carried(regular[k + 1..], true));
      Assoc(out, [f], Carried(regular[k + 1..], seenHost));
      if ConnectionSpecific(Lower(f.name)) { continue; }
      if Lower(f.name) == "host" {
        if seenHost { continue; }
        seenHost := true;
      }
      out := out + [f];
    }
    assert regular[|regular|..] == [] && out + [] == out;
    var headers := new HeaderList(out);
    if body != [] { headers.Set("Content-Length", Decimal(|body|)); }
    raw := Raw(Request(Method(hs), Path(hs), "HTTP/1.1", headers.items, body));
  }

  // ------------------------------------------------------- HTTP/1.1 to HTTP/2

  predicate AbsoluteForm(target: bytes) { "http://" <= Lower(target) || "https://" <= Lower(target) }

  /** The target without scheme and authority. */
  function OriginForm(target: bytes): bytes {
    if !AbsoluteForm(target) then target
    else
      var rest := target[Find(target, "//") + 2..];
      var slash := Find(rest, "/");
      if slash == -1 then "/" else rest[slash..]
  }

  function LowerFields(hs: Headers): Headers {
    if hs == [] then []
    else
      var lower := Lower(hs[0].name);
      (if ConnectionSpecific(lower) || lower == "host" then [] else [Field(lower, hs[0].value)]) + LowerFields(hs[1..])
  }

  lemma LowerStep(hs: Headers, k: nat)
    requires k < |hs|
    ensures var lower := Lower(hs[k].name);
      LowerFields(hs[k..])
        == if ConnectionSpecific(lower) || lower == "host" then LowerFields(hs[k + 1..])
           else [Field(lower, hs[k].value)] + LowerFields(hs[k + 1..])
  {
    Next(hs, k);
    hide ConnectionSpecific;
    assert [] + LowerFields(hs[k + 1..]) == LowerFields(hs[k + 1..]);
  }

  function Authority(r: Request): bytes { Or(GetHeader(r.headers, "host"), []) }

  function H2Fields(r: Request, scheme: bytes): Headers {
    [Field(":method", r.verb), Field(":scheme", scheme), Field(":authority", Authority(r)),
     Field(":path", OriginForm(r.target))]
    + LowerFields(r.headers)
  }

  method ToH2Request(r: Request, scheme: bytes) returns (hs: Headers, body: bytes)
    ensures hs == H2Fields(r, scheme) && body == r.body
  {
    var authority := Or(GetHeader(r.headers, "host"), []);
    hs := [Field(":method", r.verb), Field(":scheme", scheme), Field(":authority", authority),
           Field(":path", OriginForm(r.target))];
    for k := 0 to |r.headers|
      invariant H2Fields(r, scheme) == hs + LowerFields(r.headers[k..])
    {
      hide ConnectionSpecific, OriginForm, GetHeader, LowerFields, H2Fields, Lower;
      LowerStep(r.headers, k);
      var lower := Lower(r.headers[k].name);
      Assoc(hs, [Field(lower, r.headers[k].value)], LowerFields(r.headers[k + 1..]));
      if ConnectionSpecific(lower) || lower == "host" { continue; }
      hs := hs + [Field(lower, r.headers[k].value)];
    }
    body := r.body;
  }

  // ----------------------------------------------------------- framing carried

  lemma {:induction false} CarriedGetAll(hs: Headers, seenHost: bool, name: bytes)
    requires IsLower(name) && name != "host"
    ensures GetAll(Carried(hs, seenHost), name) == if ConnectionSpecific(name) then [] else GetAll(hs, name)
  {
    if hs != [] {
      hide ConnectionSpecific;
      var lower := Lower(hs[0].name);
      CarriedGetAll(hs[1..], seenHost, name);
      CarriedGetAll(hs[1..], seenHost || lower == "host", name);
    }
  }

  lemma H1FieldsGetAll(hs: Headers, name: bytes)
    requires IsLower(name) && name != "host"
    ensures GetAll(H1Fields(hs), name) == if ConnectionSpecific(name) then [] else GetAll(Regular(hs), name)
  {
    var a := HostField(hs);
    CarriedGetAll(Regular(hs), a != [], name);
    GetAllConcat(a, Carried(Regular(hs), a != []), name);
    assert Lower("Host") == "host";
    assert GetAll(a, name) == [];
  }

  /** How an HTTP/1.1 reader frames a translated request, whatever fields came in: by the
      body's own length, if it is not too large for one, except that an empty body leaves a stated
      length standing. */
  lemma TranslatedFraming(hs: Headers, body: bytes)
    ensures FramingOf(H1Request(hs, body).headers)
         == if |body| > MAX_BODY then Unreadable(BadLength) else if body != [] then Sized(|body|)
            else match GetHeader(Regular(hs), "content-length") case None => Unframed case Some(cl) => LengthOf(cl)
  {
    var te, cl, d := "transfer-encoding", "content-length", Decimal(|body|);
    FramingNames();
    H1FieldsGetAll(hs, te);
    H1FieldsGetAll(hs, cl);
    TeConnectionSpecific();
    if body != [] {
      WithHeaderGetAll(H1Fields(hs), "Content-Length", d, te);
      WithHeaderGetAll(H1Fields(hs), "Content-Length", d, cl);
      LengthOfDecimal(|body|);
    }
  }

  lemma TeConnectionSpecific()
    ensures ConnectionSpecific("transfer-encoding") && !ConnectionSpecific("content-length")
        && "content-length" != "host"
  {}

  /** The reader recovers exactly the body from every stream that continues it, if and only if
      there is a body, not too large to be read, or no length other than zero was stated without one. */
  lemma TranslatedBody(hs: Headers, body: bytes)
    ensures (forall rest :: BodyOf(body + rest, H1Request(hs, body).headers, RequestBody) == Got((body, false), rest))
       <==> |body| <= MAX_BODY
            && (body != [] || GetHeader(Regular(hs), "content-length") == None
                || LengthOf(GetHeader(Regular(hs), "content-length").value) == Sized(0))
  {
    hide FramingOf, GetHeader, H1Request;
    var headers := H1Request(hs, body).headers;
    var f := FramingOf(headers);
    TranslatedFraming(hs, body);
    forall rest | f == Sized(|body|) || (body == [] && f == Unframed)
      ensures BodyOf(body + rest, headers, RequestBody) == Got((body, false), rest)
    {
      assert (body + rest)[..|body|] == body && (body + rest)[|body|..] == rest;
    }
    if f != Sized(|body|) && !(body == [] && f == Unframed) {
      assert BodyOf(body + "x", headers, RequestBody) == FramedBody(body + "x", f, false);
      assert FramedBody(body + "x", f, false) != Got((body, false), "x");
    }
  }

  /** A request that states a length and has no body. */
  const STATED_FIELDS: Headers :=
    [Field(":method", "GET"), Field(":scheme", "https"), Field(":authority", "a"), Field(":path", "/"),
     Field("content-length", "5")]

  /** Translated, it takes as its body the first bytes of the request that comes after it. */
  lemma StatedLengthTaken()
    ensures BodyOf("GET / HTTP/1.1", H1Request(STATED_FIELDS, "").headers, RequestBody)
        == Got(("GET /", false), " HTTP/1.1")
  {
    hide Regular, FramingOf, H1Request, LengthOf, GetHeader;
    assert Decimal(5) == "5";
    LengthOfDecimal(5);
    TranslatedFraming(STATED_FIELDS, "");
    StatedRegular();
    assert FramingOf(H1Request(STATED_FIELDS, "").headers) == Sized(5);
    var s := "GET / HTTP/1.1";
    assert s[..5] == "GET /" && s[5..] == " HTTP/1.1";
  }

  lemma StatedRegular()
    ensures GetHeader(Regular(STATED_FIELDS), "content-length") == Some("5")
  {
    var stated := Field("content-length", "5");
    assert Regular(STATED_FIELDS) == [stated];
    hide Lower, Regular;
    assert [stated][1..] == [] && GetAll([stated], "content-length") == ["5"];
  }

  // ------------------------------------------------------- what is carried over

  /** RFC 9113 section 8.2.2: the fields that belong to one connection. */
  const CONNECTION_FIELDS: seq<bytes> :=
    ["Connection", "Keep-Alive", "Proxy-Connection", "Transfer-Encoding", "Upgrade", "Proxy-Authenticate"]

  predicate OfConnection(name: bytes) {
    exists k :: 0 <= k < |CONNECTION_FIELDS| && SameText(name, CONNECTION_FIELDS[k])
  }

  lemma LowerConnection()
    ensures Lower("Connection") == "connection" && Lower("Keep-Alive") == "keep-alive" && Lower("Upgrade") == "upgrade"
  {}

  lemma LowerProxy()
    ensures Lower("Proxy-Connection") == "proxy-connection" && Lower("Proxy-Authenticate") == "proxy-authenticate"
  {}

  lemma LowerCoding()
    ensures Lower("Transfer-Encoding") == "transfer-encoding"
  {}

  lemma LowerLengthHost()
    ensures Lower("Content-Length") == "content-length" && Lower("Host") == "host" == Lower("host")
  {}

  lemma LowerTwice(s: bytes)
    ensures Lower(Lower(s)) == Lower(s)
  {}

  lemma PlainNames()
    ensures !ConnectionSpecific("content-length") && !ConnectionSpecific("host")
  {}

  lemma ConnectionNames(name: bytes)
    ensures OfConnection(name) <==> ConnectionSpecific(Lower(name))
  {
    hide SameText, Lower;
    LowerConnection();
    LowerProxy();
    LowerCoding();
    forall k | 0 <= k < |CONNECTION_FIELDS| { LowerSame(name, CONNECTION_FIELDS[k]); }
    if ConnectionSpecific(Lower(name)) {
      var l := Lower(name);
      var k := if l == "connection" then 0 else if l == "keep-alive" then 1 else if l == "proxy-connection" then 2
               else if l == "transfer-encoding" then 3 else if l == "upgrade" then 4 else 5;
      assert SameText(name, CONNECTION_FIELDS[k]);
    }
  }

  lemma {:induction false} GetAllLower(hs: Headers, name: bytes)
    ensures GetAll(hs, name) == GetAll(hs, Lower(name)) && IsLower(Lower(name))
  {
    assert Lower(Lower(name)) == Lower(name);
    if hs != [] { GetAllLower(hs[1..], name); hide Lower; }
  }

  lemma {:induction false} RegularGetAll(hs: Headers, name: bytes)
    requires name == [] || name[0] != ':'
    ensures GetAll(Regular(hs), name) == GetAll(hs, name)
  {
    if hs != [] {
      RegularGetAll(hs[1..], name);
      if IsPseudo(hs[0]) {
        PseudoName(hs[0], name);
        assert [] + Regular(hs[1..]) == Regular(hs[1..]) && [] + GetAll(hs[1..], name) == GetAll(hs[1..], name);
      } else { GetAllCons(hs[0], Regular(hs[1..]), name); }
      hide Named;
    }
  }

  lemma PseudoName(f: Field, name: bytes)
    requires IsPseudo(f) && (name == [] || name[0] != ':')
    ensures !Named(f, name)
  {
    assert Lower(f.name)[0] == ':' && (name != [] ==> Lower(name)[0] != ':');
  }

  /** The Host fields among those carried over: the first, unless one was there before. */
  lemma {:induction false} CarriedHost(hs: Headers, seenHost: bool)
    ensures var all := GetAll(hs, "host");
      GetAll(Carried(hs, seenHost), "host") == if seenHost || all == [] then [] else [all[0]]
  {
    assert !ConnectionSpecific("host") && Lower("host") == "host";
    if hs != [] {
      CarriedHost(hs[1..], seenHost);
      CarriedHost(hs[1..], true);
      hide ConnectionSpecific, Lower;
    }
  }

  /** An HTTP/2 request as HTTP/1.1: its method and path, the authority or else the first Host field as
      Host, the body's length, no connection's own field, and every other field's values. */
  lemma H1Means(hs: Headers, body: bytes, name: bytes)
    requires name == [] || name[0] != ':'
    ensures var r := H1Request(hs, body); var a := Get(Pseudo(hs), ":authority"); var hosts := GetAll(hs, "host");
      && r.verb == Method(hs) && r.target == Path(hs) && r.version == "HTTP/1.1" && r.body == body
      && GetAll(r.headers, name) ==
         if SameText(name, "Content-Length") && body != [] then [Decimal(|body|)]
         else if OfConnection(name) then []
         else if SameText(name, "Host") then
           if a.Some? && a.value != [] then [a.value] else if hosts == [] then [] else [hosts[0]]
         else GetAll(hs, name)
  {
    var l := Lower(name);
    assert l == [] || l[0] != ':';
    hide SameText, Lower, ConnectionSpecific, OfConnection, Decimal, GetAll, H1Fields, Method, Path, Get, Pseudo,
        WithHeader;
    LowerSame(name, "Content-Length");
    LowerSame(name, "Host");
    LowerLengthHost();
    PlainNames();
    ConnectionNames(name);
    RegularGetAll(hs, "host");
    GetAllLower(H1Fields(hs), name);
    GetAllLower(hs, name);
    LowerTwice(name);
    WithHeaderGetAll(H1Fields(hs), "Content-Length", Decimal(|body|), name);
    RegularGetAll(hs, l);
    if l == "host" { H1Host(hs); } else { H1FieldsGetAll(hs, l); }
  }

  lemma H1Host(hs: Headers)
    ensures var a := Get(Pseudo(hs), ":authority"); var hosts := GetAll(Regular(hs), "host");
      GetAll(H1Fields(hs), "host") == if a.Some? && a.value != [] then [a.value] else if hosts == [] then []
          else [hosts[0]]
  {
    var front := HostField(hs);
    CarriedHost(Regular(hs), front != []);
    HostFieldHost(hs);
    hide Carried, Regular, Get, Pseudo, HostField, GetAll;
    GetAllConcat(front, Carried(Regular(hs), front != []), "host");
  }

  lemma HostFieldHost(hs: Headers)
    ensures var a := Get(Pseudo(hs), ":authority");
      && (HostField(hs) == [] <==> !(a.Some? && a.value != []))
      && GetAll(HostField(hs), "host") == if a.Some? && a.value != [] then [a.value] else []
  {
    hide Get, Pseudo;
    assert Lower("Host") == Lower("host");
    hide Lower;
  }

  lemma {:induction false} LowerFieldsMean(hs: Headers, name: bytes)
    ensures GetAll(LowerFields(hs), name)
         == if ConnectionSpecific(Lower(name)) || Lower(name) == "host" then [] else GetAll(hs, name)
    ensures forall i :: 0 <= i < |LowerFields(hs)| ==> IsLower(LowerFields(hs)[i].name)
  {
    hide ConnectionSpecific, Lower;
    if hs != [] {
      LowerFieldsMean(hs[1..], name);
      var f := Field(Lower(hs[0].name), hs[0].value);
      LowerTwice(hs[0].name);
      GetAllCons(f, LowerFields(hs[1..]), name);
      NothingBefore(LowerFields(hs[1..]));
      assert [] + GetAll(hs[1..], name) == GetAll(hs[1..], name);
    }
  }

  lemma NothingBefore<T>(s: seq<T>)
    ensures [] + s == s
  {}

  /** An HTTP/1.1 request as HTTP/2: the four pseudo-headers, then lower-case fields, none the
      connection's own nor Host, and every other field's values. */
  lemma H2Means(r: Request, scheme: bytes, name: bytes)
    ensures var hs := H2Fields(r, scheme); var hosts := GetAll(r.headers, "host");
      && |hs| >= 4 && hs[0] == Field(":method", r.verb) && hs[1] == Field(":scheme", scheme)
      && hs[2] == Field(":authority", if hosts == [] then [] else hosts[0])
      && hs[3] == Field(":path", OriginForm(r.target))
      && (forall i :: 4 <= i < |hs| ==> IsLower(hs[i].name))
      && GetAll(hs[4..], name) == if OfConnection(name) || SameText(name, "Host") then [] else GetAll(r.headers, name)
  {
    hide LowerFields, OriginForm, OfConnection, SameText, Lower, ConnectionSpecific, GetAll;
    var rest := LowerFields(r.headers);
    LowerFieldsMean(r.headers, name);
    LowerSame(name, "Host");
    LowerLengthHost();
    ConnectionNames(name);
    var front := [Field(":method", r.verb), Field(":scheme", scheme), Field(":authority", Authority(r)),
                  Field(":path", OriginForm(r.target))];
    assert H2Fields(r, scheme) == front + rest && (front + rest)[4..] == rest;
  }

  /** An absolute target gives its path; a target of any other form is kept. */
  lemma OriginMeans(scheme: bytes, authority: bytes, path: bytes)
    requires (SameText(scheme, "http") || SameText(scheme, "https")) && '/' !in authority
    requires path == [] || path[0] == '/'
    ensures OriginForm(scheme + "://" + authority + path) == if path == [] then "/" else path
  {
    var target := scheme + "://" + authority + path;
    var front := scheme + ":";
    LowerSame(scheme, "http");
    LowerSame(scheme, "https");
    assert Lower("http") == "http" && Lower("https") == "https";
    assert AbsoluteForm(target) by {
      SchemeLower(scheme, authority + path);
      assert target == scheme + "://" + (authority + path);
    }
    SchemeSlash(scheme);
    assert target == front + "//" + (authority + path);
    FindSlashes(front, authority + path);
    assert target[|front| + 2..] == authority + path;
    hide AbsoluteForm, Lower, SameText;
    FindByte(authority + path, '/');
    if path == [] { assert authority + path == authority; }
    else { FindByteIs(authority + path, '/', |authority|); }
  }

  lemma SchemeLower(scheme: bytes, rest: bytes)
    requires Lower(scheme) == "http" || Lower(scheme) == "https"
    ensures AbsoluteForm(scheme + "://" + rest)
  {
    var target := scheme + "://" + rest;
    assert Lower(target) == Lower(scheme) + "://" + Lower(rest);
  }

  lemma SchemeSlash(scheme: bytes)
    requires Lower(scheme) == "http" || Lower(scheme) == "https"
    ensures '/' !in scheme + ":"
  {
    forall i | 0 <= i < |scheme| ensures scheme[i] != '/' { assert Lower(scheme)[i] == LowerChar(scheme[i]); }
  }

  lemma FindSlashes(front: bytes, rest: bytes)
    requires '/' !in front
    ensures Find(front + "//" + rest, "//") == |front|
  {
    var s := front + "//" + rest;
    assert s[|front|..|front| + 2] == "//";
    assert At(s, "//", |front|);
    forall j | 0 <= j < |front| ensures !At(s, "//", j) {
      assert s[j] == front[j] != '/';
      assert s[j..j + 2][0] == s[j];
    }
  }

  /** A target that does not begin with a scheme is kept. */
  lemma OriginKept(target: bytes)
    requires !StandsAt(target, "http://", 0) && !StandsAt(target, "https://", 0)
    ensures OriginForm(target) == target
  {
    assert IsLower("http://") && IsLower("https://");
    if |target| >= 7 { LowerSlice(target, 0, 7); LowerSame(target[0..7], "http://"); }
    if |target| >= 8 { LowerSlice(target, 0, 8); LowerSame(target[0..8], "https://"); }
    hide SameText, Lower;
  }

  // -------------------------------------------------------------- round trip

  /** Regular fields HTTP/2 sends and HTTP/1.1 can carry unchanged. */
  predicate Portable(f: Field) {
    && GoodName(f.name) && !Folded(f.name) && GoodValue(f.value) && IsLower(f.name)
    && !ConnectionSpecific(f.name) && f.name != "host"
  }

  predicate AllPortable(hs: Headers) { forall i :: 0 <= i < |hs| ==> Portable(hs[i]) }

  function Canonical(m: bytes, s: bytes, a: bytes, p: bytes, regular: Headers): Headers {
    [Field(":method", m), Field(":scheme", s), Field(":authority", a), Field(":path", p)] + regular
  }

  predicate Translatable(m: bytes, a: bytes, p: bytes, regular: Headers, body: bytes) {
    && Token(m) && Token(p) && !AbsoluteForm(p) && a != [] && GoodValue(a) && AllPortable(regular)
    && (body != [] ==> GetAll(regular, "content-length") == [Decimal(|body|)])
  }

  lemma {:induction false} PortableCarried(hs: Headers)
    requires AllPortable(hs)
    ensures Carried(hs, true) == hs && LowerFields(hs) == hs && Regular(hs) == hs
  {
    if hs != [] {
      assert Portable(hs[0]);
      hide ConnectionSpecific;
      PortableCarried(hs[1..]);
    }
  }

  /** Setting a value that is already the only one changes nothing. */
  lemma {:induction false} WithHeaderSame(hs: Headers, name: bytes, value: bytes)
    requires GetAll(hs, name) == [value]
    ensures WithHeader(hs, name, value) == hs
  {
    assert hs == [hs[0]] + hs[1..];
    if Named(hs[0], name) {
      var all := [hs[0].value] + GetAll(hs[1..], name);
      assert all == [value] && all[0] == hs[0].value && |all| == 1 + |GetAll(hs[1..], name)|;
      WithoutAbsent(hs[1..], name);
    } else { WithHeaderSame(hs[1..], name, value); }
  }

  lemma {:induction false} WithoutAbsent(hs: Headers, name: bytes)
    requires GetAll(hs, name) == []
    ensures Without(hs, name) == hs
  {
    if hs != [] { WithoutAbsent(hs[1..], name); }
  }

  lemma CanonicalH1(m: bytes, s: bytes, a: bytes, p: bytes, regular: Headers, body: bytes)
    requires Translatable(m, a, p, regular, body)
    ensures H1Request(Canonical(m, s, a, p, regular), body)
         == Request(m, p, "HTTP/1.1", [Field("Host", a)] + regular, body)
  {
    hide Regular, Pseudo, Get, Carried, LowerFields, AllPortable, Decimal, AbsoluteForm;
    var hs := Canonical(m, s, a, p, regular);
    NoPseudo(regular);
    FourPseudo(m, s, a, p, regular);
    PortableCarried(regular);
    if body != [] {
      var host := [Field("Host", a)];
      FramingNames();
      GetAllConcat(host, regular, "Content-Length");
      GetAllName(regular, "Content-Length", "content-length");
      assert Lower("Host")[0] != "content-length"[0];
      assert GetAll(host, "Content-Length") == [];
      WithHeaderSame(host + regular, "Content-Length", Decimal(|body|));
    }
  }

  lemma NoPseudo(hs: Headers)
    requires AllPortable(hs)
    ensures forall i :: 0 <= i < |hs| ==> !IsPseudo(hs[i])
  {
    forall i | 0 <= i < |hs| ensures !IsPseudo(hs[i]) { assert Portable(hs[i]); }
  }

  lemma {:induction false} GetAllName(hs: Headers, a: bytes, b: bytes)
    requires Lower(a) == Lower(b)
    ensures GetAll(hs, a) == GetAll(hs, b)
  {
    if hs != [] { GetAllName(hs[1..], a, b); }
  }

  lemma CanonicalPrinted(m: bytes, a: bytes, p: bytes, regular: Headers, body: bytes)
    requires Translatable(m, a, p, regular, body)
    ensures Printed(Request(m, p, "HTTP/1.1", [Field("Host", a)] + regular, body))
  {
    hide ConnectionSpecific, GetAll, AbsoluteForm, Decimal, IsLower;
    var hs := [Field("Host", a)] + regular;
    DefaultVersion();
    forall i | 0 <= i < |hs| ensures GoodName(hs[i].name) && GoodValue(hs[i].value) && (i > 0 ==> !Folded(hs[i].name)) {
      if i > 0 { assert Portable(regular[i - 1]); } else { assert GoodName("Host"); }
    }
  }

  lemma CanonicalBack(m: bytes, s: bytes, a: bytes, p: bytes, regular: Headers, body: bytes)
    requires Translatable(m, a, p, regular, body)
    ensures H2Fields(Request(m, p, "HTTP/1.1", [Field("Host", a)] + regular, body), s) == Canonical(m, s, a, p, regular)
  {
    hide Regular, Carried, AllPortable, Decimal, AbsoluteForm, ConnectionSpecific;
    var hs := [Field("Host", a)] + regular;
    assert hs[1..] == regular;
    assert Lower("Host") == "host" == Lower("host");
    PortableCarried(regular);
    assert LowerFields(hs) == regular;
    assert GetAll(hs, "host")[0] == a;
  }

  /** Canonical HTTP/2 fields, written as HTTP/1.1 bytes, parsed and translated back, are the
      same fields and body. */
  lemma TranslationRoundTrip(m: bytes, s: bytes, a: bytes, p: bytes, regular: Headers, body: bytes)
    requires Translatable(m, a, p, regular, body)
    ensures var hs := Canonical(m, s, a, p, regular); var r := H1Request(hs, body);
      ParseRequest(Raw(r)) == Ok(r) && H2Fields(r, s) == hs && r.body == body
  {
    hide Translatable, Raw, Canonical, Printed;
    CanonicalH1(m, s, a, p, regular, body);
    CanonicalPrinted(m, a, p, regular, body);
    ParsePrinted(H1Request(Canonical(m, s, a, p, regular), body));
    CanonicalBack(m, s, a, p, regular, body);
  }
}
