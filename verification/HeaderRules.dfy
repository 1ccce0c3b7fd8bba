/** Header rewriting rules: which are accepted, what they do, and that they cannot move a
    message's framing. */
module HeaderRules {
  import opened Bytes
  import opened Ascii
  import opened Letters
  import opened HttpMessage
  import opened HttpReader
  import opened ServeLoop

  datatype Target = OnRequest | OnResponse
  datatype Action = SetIt | AddIt | RemoveIt
  datatype Rule = Rule(enabled: bool, target: Target, action: Action, name: string, value: string)

  datatype RuleError = NoName | BadName | Protected | LineBreak

  predicate TokenChar(c: char) {
    'a' <= c <= 'z' || 'A' <= c <= 'Z' || '0' <= c <= '9' || c in "!#$%&'*+-.^_`|~"
  }

  predicate IsToken(s: string) { s != [] && forall i :: 0 <= i < |s| ==> TokenChar(s[i]) }

  predicate BreaksLine(s: string) { '\r' in s || '\n' in s }

  /** The characters `str.strip` removes. */
  predicate IsTextSpace(c: char) {
    || IsSpace(c) || '\U{1C}' <= c <= '\U{1F}' || c == '\U{85}' || c == '\U{A0}' || c == '\U{1680}'
    || '\U{2000}' <= c <= '\U{200A}' || c == '\U{2028}' || c == '\U{2029}' || c == '\U{202F}' || c == '\U{205F}'
    || c == '\U{3000}'
  }

  function TextStrip(s: string): string
    decreases |s|
  {
    if s == [] then s
    else if IsTextSpace(s[0]) then TextStrip(s[1..])
    else if IsTextSpace(s[|s| - 1]) then TextStrip(s[..|s| - 1])
    else s
  }

  function CheckRule(rule: Rule): Option<RuleError> {
    var name := TextStrip(rule.name);
    if name == [] then Some(NoName)
    else if !IsToken(name) then Some(BadName)
    else if Lower(name) == "content-length" || Lower(name) == "transfer-encoding" then Some(Protected)
    else if BreaksLine(rule.value) || BreaksLine(name) then Some(LineBreak)
    else None
  }

  predicate Accepted(rules: seq<Rule>) { forall i :: 0 <= i < |rules| ==> CheckRule(rules[i]) == None }

  method ValidateHeaderRules(rules: seq<Rule>) returns (error: Option<RuleError>)
    ensures error == None <==> Accepted(rules)
    ensures error.Some? ==> exists i :: 0 <= i < |rules| && CheckRule(rules[i]) == error && Accepted(rules[..i])
  {
    hide CheckRule;
    for i := 0 to |rules|
      invariant Accepted(rules[..i])
    {
      error := CheckRule(rules[i]);
      if error.Some? { return; }
      assert rules[..i + 1] == rules[..i] + [rules[i]];
    }
    error := None;
    assert rules[..|rules|] == rules;
  }

  /** `encode("latin-1", "replace")`: a character outside the range becomes a question mark. */
  function Latin1(s: string): (r: bytes)
    ensures |r| == |s| && forall i :: 0 <= i < |s| ==> r[i] == if s[i] as int < 256 then s[i] else '?'
  {
    seq(|s|, i requires 0 <= i < |s| => if s[i] as int < 256 then s[i] else '?')
  }

  /** One character as UTF-8, bytes written as characters with their codes. */
  function Utf8Char(c: char): bytes {
    var n := c as int;
    if n < 0x80 then [c]
    else if n < 0x800 then [(0xC0 + n / 0x40) as char, Tail(n)]
    else if n < 0x10000 then [(0xE0 + n / 0x1000) as char, Tail(n / 0x40), Tail(n)]
    else [(0xF0 + n / 0x40000) as char, Tail(n / 0x1000), Tail(n / 0x40), Tail(n)]
  }

  function Tail(n: nat): char { (0x80 + n % 0x40) as char }

  /** `encode()`, which the header list uses for a name it looks for. */
  function Utf8(s: string): bytes { if s == [] then [] else Utf8Char(s[0]) + Utf8(s[1..]) }

  predicate Fires(rule: Rule, target: Target) {
    rule.enabled && rule.target == target && TextStrip(rule.name) != []
  }

  function ApplyRule(hs: Headers, rule: Rule, target: Target): Headers {
    var name := TextStrip(rule.name);
    if !Fires(rule, target) then hs
    else match rule.action
      case RemoveIt => Without(hs, Utf8(name))
      case AddIt => hs + [Field(Latin1(name), Latin1(rule.value))]
      case SetIt => WithHeader(hs, Utf8(name), Latin1(rule.value))
  }

  /** A removal counts only where there is something to remove. */
  predicate Effective(hs: Headers, rule: Rule, target: Target) {
    Fires(rule, target) && (rule.action == RemoveIt ==> GetAll(hs, Utf8(TextStrip(rule.name))) != [])
  }

  function Fired(hs: Headers, rules: seq<Rule>, target: Target): nat
    decreases rules
  {
    if rules == [] then 0 else
      (if Effective(hs, rules[0], target) then 1 else 0) + Fired(ApplyRule(hs, rules[0], target), rules[1..], target)
  }

  function ApplyRules(hs: Headers, rules: seq<Rule>, target: Target): Headers
    decreases rules
  {
    if rules == [] then hs else ApplyRules(ApplyRule(hs, rules[0], target), rules[1..], target)
  }

  method ApplyHeaderRules(headers: HeaderList, rules: seq<Rule>, target: Target) returns (applied: nat)
    modifies headers
    ensures headers.items == ApplyRules(old(headers.items), rules, target)
    ensures applied == Fired(old(headers.items), rules, target)
  {
    applied := 0;
    for i := 0 to |rules|
      invariant ApplyRules(old(headers.items), rules, target) == ApplyRules(headers.items, rules[i..], target)
      invariant Fired(old(headers.items), rules, target) == applied + Fired(headers.items, rules[i..], target)
    {
      var rule := rules[i];
      assert rules[i..][0] == rules[i] && rules[i..][1..] == rules[i + 1..];
      hide TextStrip, Utf8, Latin1, WithHeader, Without, GetAll;
      if !rule.enabled || rule.target != target { continue; }
      var name := TextStrip(rule.name);
      if name == [] { continue; }
      match rule.action {
        case RemoveIt =>
          var before := |headers.items|;
          WithoutLength(headers.items, Utf8(name));
          headers.Remove(Utf8(name));
          if |headers.items| != before { applied := applied + 1; }
        case AddIt =>
          headers.items := headers.items + [Field(Latin1(name), Latin1(rule.value))];
          applied := applied + 1;
        case SetIt =>
          headers.Set(Utf8(name), Latin1(rule.value));
          applied := applied + 1;
      }
    }
  }

  lemma {:induction false} WithoutLength(hs: Headers, name: bytes)
    ensures |Without(hs, name)| + |GetAll(hs, name)| == |hs|
  {
    if hs != [] { WithoutLength(hs[1..], name); }
  }

  // ------------------------------------------------------------ what rules mean

  predicate TextBlank(s: string) { forall i :: 0 <= i < |s| ==> IsTextSpace(s[i]) }

  /** Stripping takes white space off both ends and nothing else. */
  lemma {:induction false} TextStripMeans(s: string) returns (pre: string, post: string)
    ensures s == pre + TextStrip(s) + post && TextBlank(pre) && TextBlank(post)
    ensures var t := TextStrip(s); t != [] ==> !IsTextSpace(t[0]) && !IsTextSpace(t[|t| - 1])
    decreases |s|
  {
    hide IsTextSpace;
    if s == [] { pre, post := "", ""; }
    else if IsTextSpace(s[0]) {
      pre, post := TextStripMeans(s[1..]);
      assert s == [s[0]] + (pre + TextStrip(s) + post);
      Assoc([s[0]], pre + TextStrip(s), post);
      Assoc([s[0]], pre, TextStrip(s));
      pre := [s[0]] + pre;
    } else if IsTextSpace(s[|s| - 1]) {
      var t := s[..|s| - 1];
      pre, post := TextStripMeans(t);
      assert s == (pre + TextStrip(s) + post) + [s[|s| - 1]];
      Assoc(pre + TextStrip(s), post, [s[|s| - 1]]);
      post := post + [s[|s| - 1]];
    } else {
      pre, post := "", "";
      assert s == "" + s + "";
    }
  }

  /** A rule is refused for the first of these reasons, and otherwise accepted. */
  lemma RuleChecked(rule: Rule)
    ensures var name := TextStrip(rule.name);
      CheckRule(rule) ==
        if name == "" then Some(NoName)
        else if exists i :: 0 <= i < |name| && !TokenChar(name[i]) then Some(BadName)
        else if SameText(name, "Content-Length") || SameText(name, "Transfer-Encoding") then Some(Protected)
        else if '\r' in rule.value || '\n' in rule.value then Some(LineBreak)
        else None
  {
    var name := TextStrip(rule.name);
    assert Lower("Content-Length") == "content-length" && Lower("Transfer-Encoding") == "transfer-encoding";
    LowerSame(name, "Content-Length");
    LowerSame(name, "Transfer-Encoding");
    hide TextStrip, Lower, SameText;
    if IsToken(name) { TokenUnbroken(name); }
    hide TokenChar;
  }

  lemma TokenUnbroken(name: string)
    requires IsToken(name)
    ensures !BreaksLine(name)
  {
    forall i | 0 <= i < |name| ensures name[i] != '\r' && name[i] != '\n' { assert TokenChar(name[i]); }
  }

  /** What one rule does: nothing unless it is enabled, for this direction and named; else it removes
      every field of its name, appends one field, or leaves exactly one value of its name. */
  lemma RuleMeans(hs: Headers, rule: Rule, target: Target, other: bytes)
    ensures var name := TextStrip(rule.name); var out := ApplyRule(hs, rule, target);
      if !rule.enabled || rule.target != target || name == "" then out == hs && !Effective(hs, rule, target)
      else match rule.action
        case RemoveIt =>
          && GetAll(out, other) == (if SameText(other, Utf8(name)) then [] else GetAll(hs, other))
          && (Effective(hs, rule, target) <==> GetAll(hs, Utf8(name)) != [])
        case AddIt => out == hs + [Field(Latin1(name), Latin1(rule.value))] && Effective(hs, rule, target)
        case SetIt =>
          && GetAll(out, other) == (if SameText(other, Utf8(name)) then [Latin1(rule.value)] else GetAll(hs, other))
          && Effective(hs, rule, target)
  {
    var name := TextStrip(rule.name);
    LowerSame(other, Utf8(name));
    WithoutGetAll(hs, Utf8(name), other);
    WithHeaderGetAll(hs, Utf8(name), Latin1(rule.value), other);
    hide TextStrip, Utf8, Latin1, SameText, Lower;
  }

  /** Rules apply one after another, in the order they are listed. */
  lemma {:induction false} RulesInOrder(hs: Headers, rules: seq<Rule>, last: Rule, target: Target)
    ensures ApplyRules(hs, rules + [last], target) == ApplyRule(ApplyRules(hs, rules, target), last, target)
    ensures Fired(hs, rules + [last], target)
         == Fired(hs, rules, target) + if Effective(ApplyRules(hs, rules, target), last, target) then 1 else 0
    decreases rules
  {
    hide ApplyRule, Effective;
    var all := rules + [last];
    if rules == [] { assert all == [last] && all[1..] == []; }
    else {
      assert all[0] == rules[0] && all[1..] == rules[1..] + [last];
      RulesInOrder(ApplyRule(hs, rules[0], target), rules[1..], last, target);
    }
  }

  // ------------------------------------------------------- framing is kept

  predicate SameFraming(a: Headers, b: Headers) {
    && GetAll(a, "content-length") == GetAll(b, "content-length")
    && GetAll(a, "transfer-encoding") == GetAll(b, "transfer-encoding")
  }

  lemma {:induction false} TokenUtf8(name: bytes)
    requires forall i :: 0 <= i < |name| ==> TokenChar(name[i])
    ensures Utf8(name) == name
  {
    if name != [] {
      assert forall i :: 0 <= i < |name| - 1 ==> name[1..][i] == name[i + 1];
      TokenUtf8(name[1..]);
      Cons(name);
    }
  }

  lemma TokenAscii(name: bytes)
    requires IsToken(name)
    ensures Latin1(name) == name == Utf8(name) && GoodName(name) && !Folded(name)
  {
    TokenUtf8(name);
    hide TokenChar, Utf8, IsSpace;
    forall i | 0 <= i < |name|
      ensures name[i] as int < 256 && name[i] != ':' && name[i] != '\n' && name[i] != ' ' && name[i] != '\t'
    {
      TokenCharPlain(name[i]);
    }
    assert name[0] == name[0];
  }

  lemma TokenCharPlain(c: char)
    requires TokenChar(c)
    ensures c as int < 256 && c != ':' && c != '\n' && c != ' ' && c != '\t'
  {}

  lemma ApplyRuleGetAll(hs: Headers, rule: Rule, target: Target, name: bytes)
    requires CheckRule(rule) == None && Lower(TextStrip(rule.name)) != Lower(name)
    ensures GetAll(ApplyRule(hs, rule, target), name) == GetAll(hs, name)
  {
    var n := TextStrip(rule.name);
    TokenAscii(n);
    hide TextStrip, Utf8, Latin1, IsToken;
    if Fires(rule, target) {
      match rule.action {
        case RemoveIt => WithoutGetAll(hs, n, name);
        case AddIt =>
          var f := Field(Latin1(n), Latin1(rule.value));
          GetAllConcat(hs, [f], name);
          assert GetAll([f], name) == [];
        case SetIt => WithHeaderGetAll(hs, n, Latin1(rule.value), name);
      }
    }
  }

  /** Accepted rules leave the framing fields' values as they were, every one, in order. */
  lemma {:induction false} RulesKeepFraming(hs: Headers, rules: seq<Rule>, target: Target)
    requires Accepted(rules)
    ensures SameFraming(ApplyRules(hs, rules, target), hs)
    ensures FramingOf(ApplyRules(hs, rules, target)) == FramingOf(hs)
    decreases rules
  {
    if rules != [] {
      assert CheckRule(rules[0]) == None;
      FramingNames();
      ApplyRuleGetAll(hs, rules[0], target, "content-length");
      ApplyRuleGetAll(hs, rules[0], target, "transfer-encoding");
      RulesKeepFraming(ApplyRule(hs, rules[0], target), rules[1..], target);
    }
  }

  // ------------------------------------------------- messages stay readable

  lemma {:induction false} WithoutWired(hs: Headers, name: bytes)
    requires Wired(hs)
    ensures Wired(Without(hs, name))
    ensures Without(hs, name) != [] && Folded(Without(hs, name)[0].name) ==>
      hs != [] && Without(hs, name)[0] == hs[0]
  {
    if hs != [] {
      assert forall i :: 0 <= i < |hs| - 1 ==> hs[1..][i] == hs[i + 1];
      WithoutWired(hs[1..], name);
      WiredCons(hs[0], Without(hs[1..], name));
      assert hs[1..] != [] ==> !Folded(hs[1..][0].name);
    }
  }

  lemma WiredCons(f: Field, hs: Headers)
    requires WiredField(f) && Wired(hs) && (hs != [] ==> !Folded(hs[0].name))
    ensures Wired([f] + hs)
  {}

  lemma RuleValueWired(name: bytes, value: string)
    requires GoodName(name) && !BreaksLine(value)
    ensures WiredField(Field(name, Latin1(value)))
  {
    var v := Latin1(value);
    forall i | 0 <= i < |v| ensures v[i] != '\r' && v[i] != '\n' { assert value[i] in value; }
    ValueCloses(name, v);
  }

  lemma {:induction false} WithHeaderWired(hs: Headers, name: bytes, value: string)
    requires Wired(hs) && GoodName(name) && !Folded(name) && !BreaksLine(value)
    ensures var r := WithHeader(hs, name, Latin1(value));
      Wired(r) && r != [] && (Folded(r[0].name) ==> hs != [] && r[0].name == hs[0].name)
  {
    if hs == [] { RuleValueWired(name, value); }
    else {
      var tl := hs[1..];
      assert forall i :: 0 <= i < |tl| ==> tl[i] == hs[i + 1];
      if Named(hs[0], name) {
        RuleValueWired(hs[0].name, value);
        WithoutWired(tl, name);
        WiredCons(hs[0].(value := Latin1(value)), Without(tl, name));
      } else {
        WithHeaderWired(tl, name, value);
        WiredCons(hs[0], WithHeader(tl, name, Latin1(value)));
      }
    }
  }

  lemma WiredSnoc(hs: Headers, f: Field)
    requires Wired(hs) && WiredField(f) && !Folded(f.name)
    ensures Wired(hs + [f])
  {}

  lemma CheckedRule(rule: Rule)
    requires CheckRule(rule) == None
    ensures var n := TextStrip(rule.name);
      Latin1(n) == n == Utf8(n) && GoodName(n) && !Folded(n) && !BreaksLine(rule.value)
  {
    TokenAscii(TextStrip(rule.name));
  }

  lemma ApplyRuleWired(hs: Headers, rule: Rule, target: Target)
    requires CheckRule(rule) == None && Wired(hs)
    ensures Wired(ApplyRule(hs, rule, target))
  {
    hide CheckRule, WithHeader, Without, TextStrip, Latin1, Utf8, Wired, IsToken, Lower, GoodName, BreaksLine;
    CheckedRule(rule);
    FiredWired(hs, rule, TextStrip(rule.name));
  }

  lemma FiredWired(hs: Headers, rule: Rule, n: bytes)
    requires Wired(hs) && Latin1(n) == n && GoodName(n) && !Folded(n) && !BreaksLine(rule.value)
    ensures Wired(Without(hs, n)) && Wired(WithHeader(hs, n, Latin1(rule.value)))
    ensures Wired(hs + [Field(Latin1(n), Latin1(rule.value))])
  {
    WithoutWired(hs, n);
    RuleValueWired(n, rule.value);
    WiredSnoc(hs, Field(n, Latin1(rule.value)));
    WithHeaderWired(hs, n, rule.value);
  }

  lemma {:induction false} RulesWired(hs: Headers, rules: seq<Rule>, target: Target)
    requires Accepted(rules) && Wired(hs)
    ensures Wired(ApplyRules(hs, rules, target))
    decreases rules
  {
    if rules != [] {
      ApplyRuleWired(hs, rules[0], target);
      RulesWired(ApplyRule(hs, rules[0], target), rules[1..], target);
    }
  }

  // ------------------------------------ white space around values is framing-neutral

  lemma AtEnds(s: bytes, pat: bytes, j: int)
    requires At(s, pat, j) && pat != []
    ensures s[j] == pat[0] && s[j + |pat| - 1] == pat[|pat| - 1]
  {
    var w := s[j..j + |pat|];
    assert w[0] == s[j] && w[|pat| - 1] == s[j + |pat| - 1];
  }

  lemma SliceInside<T>(pre: seq<T>, core: seq<T>, post: seq<T>, j: nat, n: nat)
    requires j + n <= |core|
    ensures (pre + core + post)[|pre| + j..|pre| + j + n] == core[j..j + n]
  {}

  /** What is no white space at both ends lies within the core. */
  lemma InsideCore(pre: bytes, core: bytes, post: bytes, i: nat, j: nat)
    requires Blank(pre) && Blank(post) && i <= j < |pre + core + post|
    requires !IsSpace((pre + core + post)[i]) && !IsSpace((pre + core + post)[j])
    ensures |pre| <= i && j < |pre| + |core|
  {
    hide IsSpace;
    var s := pre + core + post;
    assert forall k :: 0 <= k < |pre| ==> s[k] == pre[k];
    assert forall k :: 0 <= k < |post| ==> s[|pre| + |core| + k] == post[k];
  }

  /** Where a token stands in the core it stands in the whole, and nowhere else. */
  lemma AtInCore(pre: bytes, core: bytes, post: bytes, pat: bytes, j: nat)
    requires j + |pat| <= |core|
    ensures At(pre + core + post, pat, |pre| + j) == At(core, pat, j)
  {
    SliceInside(pre, core, post, j, |pat|);
  }

  lemma OnlyInCore(pre: bytes, core: bytes, post: bytes, pat: bytes, j: int)
    requires Blank(pre) && Blank(post) && Token(pat) && At(pre + core + post, pat, j)
    ensures |pre| <= j && j + |pat| <= |pre| + |core| && At(core, pat, j - |pre|)
  {
    AtEnds(pre + core + post, pat, j);
    assert !IsSpace(pat[0]) && !IsSpace(pat[|pat| - 1]);
    hide IsSpace, Blank, Token;
    InsideCore(pre, core, post, j, j + |pat| - 1);
    hide At;
    AtInCore(pre, core, post, pat, j - |pre|);
  }

  /** Surrounding white space neither hides nor makes an occurrence of a token. */
  lemma ContainsCore(pre: bytes, core: bytes, post: bytes, pat: bytes)
    requires Blank(pre) && Blank(post) && Token(pat)
    ensures Contains(pre + core + post, pat) == Contains(core, pat)
  {
    hide IsSpace, Blank, Token, Find;
    var s := pre + core + post;
    if Contains(core, pat) {
      var j := Find(core, pat);
      assert At(core, pat, j);
      hide At;
      AtInCore(pre, core, post, pat, j);
    }
    if Contains(s, pat) { OnlyInCore(pre, core, post, pat, Find(s, pat)); }
    hide At;
  }

  lemma LowerBlank(s: bytes)
    requires Blank(s)
    ensures Blank(Lower(s))
  {}

  lemma LowerConcat(a: bytes, b: bytes)
    ensures Lower(a + b) == Lower(a) + Lower(b)
  {}

  lemma ChunkedToken()
    ensures Token("chunked")
  {}

  lemma SaysChunkedStrip(te: bytes)
    ensures SaysChunked(Strip(te)) == SaysChunked(te)
  {
    hide Strip, Lower, Find, Blank, IsSpace;
    var pre, post := StripParts(te);
    LowerBlank(pre); LowerBlank(post);
    LowerConcat(pre + Strip(te), post);
    LowerConcat(pre, Strip(te));
    ChunkedToken();
    ContainsCore(Lower(pre), Lower(Strip(te)), Lower(post), "chunked");
  }

  lemma LengthOfStrip(cl: bytes)
    ensures LengthOf(Strip(cl)) == LengthOf(cl)
  {
    assert Strip(Split(Strip(cl), ",")[0]) == Strip(Split(cl, ",")[0]) by {
      hide Strip, Split, FirstPiece;
      SplitFirst(cl, ','); SplitFirst(Strip(cl), ',');
      FirstPieceStrip(cl, ',');
    }
  }

  lemma {:induction false} GetHeaderStripped(hs: Headers, name: bytes)
    ensures GetHeader(StripValues(hs), name)
         == match GetHeader(hs, name) case None => None case Some(v) => Some(Strip(v))
  {
    if hs != [] {
      GetHeaderStripped(hs[1..], name);
      assert StripValues(hs)[1..] == StripValues(hs[1..]);
    }
  }

  /** Parsing a printed message back reads the same framing off it. */
  lemma StrippedFraming(hs: Headers)
    ensures FramingOf(StripValues(hs)) == FramingOf(hs)
  {
    var te, cl := GetHeader(hs, "transfer-encoding"), GetHeader(hs, "content-length");
    GetHeaderStripped(hs, "transfer-encoding");
    GetHeaderStripped(hs, "content-length");
    if te.Some? { SaysChunkedStrip(te.value); }
    if cl.Some? { LengthOfStrip(cl.value); }
  }

  // ------------------------------------------------------ the whole way through

  /** The request sent on for a message: read, re-framed, rules applied. */
  function SentOn(m: WireMessage, rules: seq<Rule>): Request {
    var r := Delivered(m);
    r.(headers := ApplyRules(r.headers, rules, OnRequest))
  }

  /** The same request as the next reader on the wire meets it. */
  function Forwarded(m: WireMessage, rules: seq<Rule>): WireMessage {
    var r := SentOn(m, rules);
    WireMessage(Join([StartLine(r)] + HeaderLines(r.headers), CRLF),
                if m.body.Absent? then Absent else Counted(BodyData(m.body)))
  }

  lemma NormalisedWired(hs: Headers, body: bytes, chunked: bool)
    requires Wired(hs)
    ensures Wired(Normalised(hs, body, chunked))
  {
    if chunked {
      var d := Decimal(|body|);
      WithoutWired(hs, "transfer-encoding");
      forall i | 0 <= i < |d| ensures '0' <= d[i] <= '9' { assert d[i] in d; }
      assert Latin1(d) == d;
      assert GoodName("Content-Length") && !Folded("Content-Length");
      WithHeaderWired(Without(hs, "transfer-encoding"), "Content-Length", d);
    }
  }

  lemma SentOnWired(m: WireMessage, rules: seq<Rule>)
    requires WellFramed(m) && Accepted(rules)
    ensures Printable(SentOn(m, rules))
    ensures FramingOf(SentOn(m, rules).headers) == if m.body.Absent? then Unframed else Sized(|BodyData(m.body)|)
  {
    var r, d := Parsed(m), Delivered(m);
    FramedAsRead(m);
    hide WellFramed;
    ParsedWired(m.head + BLANK);
    NormalisedWired(r.headers, BodyData(m.body), m.body.InChunks?);
    RulesWired(d.headers, rules, OnRequest);
    WiredPrintable(SentOn(m, rules));
    RulesKeepFraming(d.headers, rules, OnRequest);
    if m.body.InChunks? { NormalisedFraming(r.headers, BodyData(m.body)); }
  }

  /** What is sent on for any well-framed message is again a well-framed message with the
      same body, so the next reader delivers that body and loses its place nowhere. */
  lemma ForwardedWellFramed(m: WireMessage, rules: seq<Rule>)
    requires WellFramed(m) && Accepted(rules)
    ensures WellFramed(Forwarded(m, rules)) && Wire(Forwarded(m, rules), []) == Raw(SentOn(m, rules))
    ensures Delivered(Forwarded(m, rules))
         == var r := SentOn(m, rules); r.(headers := StripValues(r.headers), body := BodyData(m.body))
  {
    var r, f := SentOn(m, rules), Forwarded(m, rules);
    FramedAsRead(f);
    hide WellFramed, Announces, ValidBody;
    assert Find(f.head + BLANK, BLANK) == |f.head| && ParseRequest(f.head + BLANK).Ok?
      && Parsed(f) == r.(headers := StripValues(r.headers), body := [])
      && Raw(r) == f.head + BLANK + r.body by { SentOnWired(m, rules); ForwardedParses(r); }
    assert Matches(FramingOf(Parsed(f).headers), f.body) by { SentOnWired(m, rules); StrippedFraming(r.headers); }
    ForwardedBody(m, rules);
  }

  lemma ForwardedBody(m: WireMessage, rules: seq<Rule>)
    requires WellFramed(m)
    ensures var f := Forwarded(m, rules);
      ValidBody(f.body) && BodyData(f.body) == BodyData(m.body) == SentOn(m, rules).body
      && !f.body.InChunks? && BodyWire(f.body, []) == BodyData(m.body)
      && Lower(SentOn(m, rules).verb) != "connect"
  {
    FramedAsRead(m);
    hide WellFramed, Announces;
    var d := BodyData(m.body);
    assert d + [] == d;
  }

  lemma ForwardedParses(r: Request)
    requires Printable(r)
    ensures var head := Join([StartLine(r)] + HeaderLines(r.headers), CRLF);
      && Raw(r) == head + BLANK + r.body && Find(head + BLANK, BLANK) == |head|
      && ParseRequest(head + BLANK) == Ok(r.(headers := StripValues(r.headers), body := []))
  {
    var head := Join([StartLine(r)] + HeaderLines(r.headers), CRLF);
    StartLineFacts(r);
    PrintedHeadBody(StartLine(r), r.headers, r.body);
    PrintedHeadBody(StartLine(r), r.headers, []);
    assert head + BLANK + [] == head + BLANK;
    ParsePrintable(r.(body := []));
  }
}
