/** JSON pointers (RFC 6901): escaping, `to_string` and `split`. */
module Pointer {
  import opened Results

  /** The reference tokens of a pointer, unescaped. */
  type Tokens = seq<string>

  // ---------- replace_substring ----------

  predicate OccursAt(s: string, f: string, i: nat) {
    i + |f| <= |s| && s[i..i + |f|] == f
  }

  /** Every occurrence of `f` replaced by `t`, left to right, never looking inside a replacement. */
  function Replaced(s: string, f: string, t: string): string
    requires f != ""
  {
    if |s| < |f| then s
    else if f <= s then t + Replaced(s[|f|..], f, t)
    else [s[0]] + Replaced(s[1..], f, t)
  }

  /** std::string::find; -1 stands for npos. */
  function Find(s: string, f: string, from: nat): (pos: int)
    requires f != ""
    ensures pos == -1 || (from <= pos && OccursAt(s, f, pos))
    ensures forall i | from <= i && OccursAt(s, f, i) :: pos != -1 && pos <= i
    decreases |s| - from
  {
    if from + |f| > |s| then -1
    else if OccursAt(s, f, from) then from
    else Find(s, f, from + 1)
  }

  /** `Replaced` copies everything up to the first occurrence. */
  lemma {:induction false} ReplacedSkip(s: string, f: string, t: string, k: nat)
    requires f != "" && k <= |s|
    requires forall i | 0 <= i < k :: !OccursAt(s, f, i)
    ensures Replaced(s, f, t) == s[..k] + Replaced(s[k..], f, t)
  {
    if k == 0 {
      assert s[0..] == s;
    } else {
      ReplacedSkip(s, f, t, k - 1);
      var tail := s[k - 1..];
      OccursShifted(s, f, k - 1, 0);
      ReplacedStep(tail, f, t);
      assert tail[1..] == s[k..];
      Regroup(s[..k - 1], [s[k - 1]], Replaced(s[k..], f, t));
      assert s[..k] == s[..k - 1] + [s[k - 1]];
    }
  }

  lemma Regroup(a: string, b: string, c: string)
    ensures a + (b + c) == a + b + c
  {
  }

  lemma ReplacedStep(s: string, f: string, t: string)
    requires f != "" && s != "" && !OccursAt(s, f, 0)
    ensures Replaced(s, f, t) == [s[0]] + Replaced(s[1..], f, t)
  {
    if |s| < |f| {
      assert s == [s[0]] + s[1..];
    } else {
      assert s[0..|f|] == s[..|f|];
    }
  }

  lemma OccursShifted(s: string, f: string, from: nat, i: nat)
    requires from <= |s|
    ensures OccursAt(s[from..], f, i) <==> OccursAt(s, f, from + i)
  {
    if from + i + |f| <= |s| {
      assert s[from..][i..i + |f|] == s[from + i..from + i + |f|];
    }
  }

  /** What `Replaced` does to the text from `from` on, told by the next `find`. */
  lemma ReplacedFrom(s: string, f: string, t: string, from: nat)
    requires f != "" && from <= |s|
    ensures var pos := Find(s, f, from);
      Replaced(s[from..], f, t) ==
        if pos == -1 then s[from..] else s[from..pos] + t + Replaced(s[pos + |f|..], f, t)
  {
    var pos, rest := Find(s, f, from), s[from..];
    var k := if pos == -1 then |rest| else pos - from;
    forall i | 0 <= i < k ensures !OccursAt(rest, f, i) { OccursShifted(s, f, from, i); }
    ReplacedSkip(rest, f, t, k);
    if pos != -1 {
      assert rest[..k] == s[from..pos] && rest[k..] == s[pos..];
      assert s[pos..][|f|..] == s[pos + |f|..];
      assert s[pos..][..|f|] == s[pos..pos + |f|];
    }
  }

  /** `done` is final; the text of `s` from `from` on is still to be searched. */
  ghost predicate Progress(s0: string, f: string, t: string, s: string, from: nat)
    requires f != ""
  {
    from <= |s| && Replaced(s0, f, t) == s[..from] + Replaced(s[from..], f, t)
  }

  lemma ProgressStep(s0: string, f: string, t: string, s: string, from: nat)
    requires f != "" && Progress(s0, f, t, s, from) && Find(s, f, from) != -1
    ensures var pos := Find(s, f, from);
      Progress(s0, f, t, s[..pos] + t + s[pos + |f|..], pos + |t|)
  {
    var pos := Find(s, f, from);
    var rest := s[pos + |f|..];
    var s' := s[..pos] + t + rest;
    ReplacedFrom(s, f, t, from);
    hide Replaced, Find;
    Regroup(s[..from], s[from..pos] + t, Replaced(rest, f, t));
    assert s'[pos + |t|..] == rest;
    assert s'[..pos + |t|] == s[..from] + (s[from..pos] + t);
  }

  lemma ProgressStart(s0: string, f: string, t: string)
    requires f != ""
    ensures Progress(s0, f, t, s0, 0)
  {
    assert s0[0..] == s0;
  }

  lemma ProgressDone(s0: string, f: string, t: string, s: string, from: nat)
    requires f != "" && Progress(s0, f, t, s, from) && Find(s, f, from) == -1
    ensures s == Replaced(s0, f, t)
  {
    ReplacedFrom(s, f, t, from);
    hide Replaced, Find;
    assert s == s[..from] + s[from..];
  }

  lemma ProgressBounds(s0: string, f: string, t: string, s: string, from: nat)
    requires f != "" && Progress(s0, f, t, s, from)
    ensures from <= |s|
    ensures Find(s, f, from) != -1 ==> from <= Find(s, f, from) && Find(s, f, from) + |f| <= |s|
  {
    hide Replaced, Find;
  }

  /** The loop of `replace_substring`, which edits the string in place. */
  method ReplaceSubstring(s0: string, f: string, t: string) returns (s: string)
    requires f != ""
    ensures s == Replaced(s0, f, t)
  {
    hide *;
    s := s0;
    ghost var from: nat := 0;
    var pos := Find(s, f, 0);
    ProgressStart(s0, f, t);
    while pos != -1
      invariant Progress(s0, f, t, s, from) && pos == Find(s, f, from)
      decreases |s| - from
    {
      ProgressBounds(s0, f, t, s, from);
      ProgressStep(s0, f, t, s, from);
      s := s[..pos] + t + s[pos + |f|..];
      from := pos + |t|;
      pos := Find(s, f, pos + |t|);
    }
    ProgressDone(s0, f, t, s, from);
  }

  // ---------- escape and unescape ----------

  function Escape(s: string): string {
    Replaced(Replaced(s, "~", "~0"), "/", "~1")
  }

  function Unescape(s: string): string {
    Replaced(Replaced(s, "~1", "/"), "~0", "~")
  }

  /** What `Escape` does to one character. */
  function EscapedChar(c: char): string {
    if c == '~' then "~0" else if c == '/' then "~1" else [c]
  }

  lemma ReplacedCons(c: char, s: string, f: string, t: string)
    requires f != "" && c != f[0]
    ensures Replaced([c] + s, f, t) == [c] + Replaced(s, f, t)
  {
    assert ([c] + s)[1..] == s;
    if |s| + 1 < |f| {
      assert Replaced(s, f, t) == s;
    }
  }

  lemma ReplacedHit(s: string, f: string, t: string)
    requires f != ""
    ensures Replaced(f + s, f, t) == t + Replaced(s, f, t)
  {
    assert (f + s)[..|f|] == f && (f + s)[|f|..] == s;
  }

  /** Escaping works character by character. */
  lemma EscapeCons(c: char, s: string)
    ensures Escape([c] + s) == EscapedChar(c) + Escape(s)
  {
    var u := Replaced(s, "~", "~0");
    if c == '~' {
      ReplacedHit(s, "~", "~0");
      assert "~0" + u == ['~'] + (['0'] + u);
      ReplacedCons('~', ['0'] + u, "/", "~1");
      ReplacedCons('0', u, "/", "~1");
      assert ['~'] + (['0'] + Escape(s)) == "~0" + Escape(s);
    } else {
      ReplacedCons(c, s, "~", "~0");
      if c == '/' {
        ReplacedHit(u, "/", "~1");
      } else {
        ReplacedCons(c, u, "/", "~1");
      }
    }
  }

  /** Every tilde is followed by 0 or 1, which `split` insists on. */
  predicate WellEscaped(s: string) {
    forall i | 0 <= i < |s| :: s[i] == '~' ==> i + 1 < |s| && (s[i + 1] == '0' || s[i + 1] == '1')
  }

  lemma {:induction false} EscapeIsWellFormed(s: string)
    ensures WellEscaped(Escape(s)) && '/' !in Escape(s)
  {
    if s != "" {
      EscapeIsWellFormed(s[1..]);
      EscapeCons(s[0], s[1..]);
      assert s == [s[0]] + s[1..];
    }
  }

  /** What the two passes of `unescape` do to the first escaped character. */
  lemma UnescapeCons(c: char, s: string)
    ensures Unescape(EscapedChar(c) + s) == [c] + Unescape(s)
  {
    var u := Replaced(s, "~1", "/");
    if c == '~' {
      assert "~0" + s == ['~'] + (['0'] + s);
      assert !("~1" <= ['~'] + (['0'] + s)) by {
        assert (['~'] + (['0'] + s))[1] == '0';
      }
      assert (['~'] + (['0'] + s))[1..] == ['0'] + s;
      ReplacedCons('0', s, "~1", "/");
      assert ['~'] + (['0'] + u) == "~0" + u;
      ReplacedHit(u, "~0", "~");
    } else {
      if c == '/' {
        ReplacedHit(s, "~1", "/");
      } else {
        ReplacedCons(c, s, "~1", "/");
      }
      ReplacedCons(c, u, "~0", "~");
    }
  }

  /** A tilde is written "~0" and a slash "~1", everything else as it is (section 3 of RFC 6901). */
  lemma EscapeTable(c: char, s: string)
    ensures Escape("") == "" && Unescape("") == ""
    ensures Escape("~" + s) == "~0" + Escape(s) && Unescape("~0" + s) == "~" + Unescape(s)
    ensures Escape("/" + s) == "~1" + Escape(s) && Unescape("~1" + s) == "/" + Unescape(s)
    ensures c != '~' && c != '/' ==> Escape([c] + s) == [c] + Escape(s) && Unescape([c] + s) == [c] + Unescape(s)
  {
    EscapeCons('~', s);
    EscapeCons('/', s);
    EscapeCons(c, s);
    UnescapeCons('~', s);
    UnescapeCons('/', s);
    UnescapeCons(c, s);
    assert Replaced("", "~", "~0") == "" && Replaced("", "~1", "/") == "";
    hide Replaced;
  }

  lemma {:induction false} UnescapeEscape(s: string)
    ensures Unescape(Escape(s)) == s
  {
    if s != "" {
      EscapeCons(s[0], s[1..]);
      UnescapeCons(s[0], Escape(s[1..]));
      UnescapeEscape(s[1..]);
      assert s == [s[0]] + s[1..];
    }
  }

  lemma {:induction false} EscapeUnescape(s: string)
    requires WellEscaped(s) && '/' !in s
    ensures Escape(Unescape(s)) == s
  {
    if s != "" {
      var c := if s[0] != '~' then s[0] else if s[1] == '0' then '~' else '/';
      var rest := s[|EscapedChar(c)|..];
      assert s == EscapedChar(c) + rest;
      assert forall i | 0 <= i < |rest| :: rest[i] == s[i + |EscapedChar(c)|];
      UnescapeCons(c, rest);
      EscapeUnescape(rest);
      EscapeCons(c, Unescape(rest));
    }
  }

  // ---------- to_string ----------

  /** std::accumulate over the tokens. */
  function ToString(tokens: Tokens): string {
    if tokens == [] then ""
    else ToString(tokens[..|tokens| - 1]) + "/" + Escape(tokens[|tokens| - 1])
  }

  lemma {:induction false} ToStringConcat(a: Tokens, b: Tokens)
    ensures ToString(a + b) == ToString(a) + ToString(b)
  {
    if b == [] {
      assert a + b == a;
    } else {
      assert (a + b)[..|a + b| - 1] == a + b[..|b| - 1];
      ToStringConcat(a, b[..|b| - 1]);
    }
  }

  lemma ToStringOne(t: string)
    ensures ToString([t]) == "/" + Escape(t)
  {
    assert [t][..0] == [];
  }

  lemma ToStringCons(t: string, rest: Tokens)
    ensures ToString([t] + rest) == "/" + Escape(t) + ToString(rest)
  {
    ToStringConcat([t], rest);
    ToStringOne(t);
  }

  // ---------- split ----------

  /** The text up to the next slash. */
  function Token(s: string): (t: string)
    ensures t <= s && '/' !in t && (t == s || s[|t|] == '/')
  {
    if s == "" || s[0] == '/' then "" else [s[0]] + Token(s[1..])
  }

  lemma {:induction false} TokenUnique(t: string, rest: string)
    requires '/' !in t && (rest == "" || rest[0] == '/')
    ensures Token(t + rest) == t
  {
    if t == "" {
      assert t + rest == rest;
    } else {
      assert (t + rest)[1..] == t[1..] + rest;
      TokenUnique(t[1..], rest);
    }
  }

  /** The tokens of the text after a slash. */
  function SplitTail(s: string): Result<Tokens>
    decreases |s|
  {
    var token := Token(s);
    if !WellEscaped(token) then Err(DomainError)
    else if token == s then Ok([Unescape(token)])
    else
      var rest :- SplitTail(s[|token| + 1..]);
      Ok([Unescape(token)] + rest)
  }

  function Split(s: string): Result<Tokens> {
    if s == "" then Ok([])
    else if s[0] != '/' then Err(DomainError)
    else SplitTail(s[1..])
  }

  lemma SplitLast(e: string)
    requires '/' !in e && WellEscaped(e)
    ensures SplitTail(e) == Ok([Unescape(e)])
  {
    assert e + "" == e;
    TokenUnique(e, "");
    hide WellEscaped, Unescape, Token;
  }

  lemma SplitMore(e: string, more: string)
    requires '/' !in e && WellEscaped(e) && SplitTail(more).Ok?
    ensures SplitTail(e + ("/" + more)) == Ok([Unescape(e)] + SplitTail(more).value)
  {
    var s := e + ("/" + more);
    TokenUnique(e, "/" + more);
    assert s[|e| + 1..] == more && e != s;
    hide WellEscaped, Unescape, Token;
  }

  lemma NoText()
    ensures ToString([]) == ""
  {
  }

  lemma {:induction false} SplitTailOfTokens(t: string, rest: Tokens)
    ensures SplitTail(Escape(t) + ToString(rest)) == Ok([t] + rest)
    decreases |rest|
  {
    hide *;
    EscapeIsWellFormed(t);
    UnescapeEscape(t);
    if rest == [] {
      NoText();
      assert Escape(t) + "" == Escape(t) && [t] + rest == [t];
      SplitLast(Escape(t));
    } else {
      assert rest == [rest[0]] + rest[1..];
      var more := Escape(rest[0]) + ToString(rest[1..]);
      ToStringCons(rest[0], rest[1..]);
      Regroup("/", Escape(rest[0]), ToString(rest[1..]));
      SplitTailOfTokens(rest[0], rest[1..]);
      SplitMore(Escape(t), more);
    }
  }

  lemma SplitSlash(s: string)
    ensures Split("/" + s) == SplitTail(s)
  {
    assert ("/" + s)[1..] == s;
  }

  /** `json_pointer(ptr.to_string()) == ptr` for every pointer: no token is rejected or altered. */
  lemma SplitToString(tokens: Tokens)
    ensures Split(ToString(tokens)) == Ok(tokens)
  {
    if tokens != [] {
      var first, rest := Escape(tokens[0]), ToString(tokens[1..]);
      assert tokens == [tokens[0]] + tokens[1..];
      ToStringCons(tokens[0], tokens[1..]);
      Regroup("/", first, rest);
      SplitSlash(first + rest);
      SplitTailOfTokens(tokens[0], tokens[1..]);
    }
  }

  lemma {:induction false} ToStringSplitTail(s: string)
    requires SplitTail(s).Ok?
    ensures ToString(SplitTail(s).value) == "/" + s
    decreases |s|
  {
    var token := Token(s);
    EscapeUnescape(token);
    if token == s {
      ToStringOne(Unescape(token));
    } else {
      var rest := s[|token| + 1..];
      ToStringSplitTail(rest);
      ToStringCons(Unescape(token), SplitTail(rest).value);
      SplitAtToken(s, token);
    }
  }

  lemma SplitAtToken(s: string, token: string)
    requires token < s && s[|token|] == '/'
    ensures "/" + token + ("/" + s[|token| + 1..]) == "/" + s
  {
  }

  /** Conversely every accepted text is the text of the pointer it denotes. */
  lemma ToStringSplit(s: string)
    requires Split(s).Ok?
    ensures ToString(Split(s).value) == s
  {
    if s != "" {
      ToStringSplitTail(s[1..]);
    }
  }

  /** A text is accepted exactly when it is the text of some pointer. */
  lemma SplitAccepts(s: string)
    ensures Split(s).Ok? <==> exists tokens :: ToString(tokens) == s
  {
    if Split(s).Ok? {
      ToStringSplit(s);
    }
    forall tokens | ToString(tokens) == s ensures Split(s).Ok? {
      SplitToString(tokens);
    }
  }

  lemma ToStringInjective(a: Tokens, b: Tokens)
    requires ToString(a) == ToString(b)
    ensures a == b
  {
    SplitToString(a);
    SplitToString(b);
  }

  /** The inner loop of `split`: visit every tilde and look at the character after it. */
  method CheckEscapes(token: string) returns (ok: bool)
    ensures ok <==> WellEscaped(token)
  {
    var pos := Find(token, "~", 0);
    var from := 0;
    while pos != -1
      invariant 0 <= from <= |token| && pos == Find(token, "~", from)
      invariant forall i | 0 <= i < from :: token[i] == '~' ==>
        i + 1 < |token| && (token[i + 1] == '0' || token[i + 1] == '1')
      decreases |token| - from
    {
      NotBefore(token, '~', from, pos);
      assert token[pos] == token[pos..pos + 1][0];
      if pos == |token| - 1 || (token[pos + 1] != '0' && token[pos + 1] != '1') {
        return false;
      }
      from := pos + 1;
      pos := Find(token, "~", from);
    }
    NotBefore(token, '~', from, |token|);
    return true;
  }

  lemma NotBefore(s: string, c: char, from: nat, to: nat)
    requires from <= to <= |s|
    requires Find(s, [c], from) == -1 || Find(s, [c], from) >= to
    ensures forall i | from <= i < to :: s[i] != c
  {
    forall i | from <= i < to ensures s[i] != c {
      assert s[i..i + 1] == [s[i]];
      assert OccursAt(s, [c], i) <==> s[i] == c;
    }
  }

  lemma FoundSlash(s: string, start: nat)
    requires start <= |s|
    ensures var slash := Find(s, "/", start);
      slash == -1 || (start <= slash < |s| && s[slash] == '/')
  {
    var slash := Find(s, "/", start);
    assert slash != -1 ==> s[slash] == s[slash..slash + 1][0];
    hide Find;
  }

  lemma TokenFind(s: string, start: nat)
    requires start <= |s|
    ensures var slash := Find(s, "/", start);
      && Token(s[start..]) == (if slash == -1 then s[start..] else s[start..slash])
      && (slash != -1 ==> start <= slash < |s| && s[slash] == '/')
  {
    hide *;
    FoundSlash(s, start);
    var slash := Find(s, "/", start);
    var end := if slash == -1 then |s| else slash;
    NotBefore(s, '/', start, end);
    var t, rest := s[start..end], s[end..];
    assert '/' !in t && s[start..] == t + rest;
    TokenUnique(t, rest);
  }

  /** The tokens still to come are those of the text from `start` on. */
  ghost predicate SplitProgress(reference: string, tokens: Tokens, start: nat) {
    && 1 <= start <= |reference|
    && Split(reference) == Prepend(tokens, SplitTail(reference[start..]))
  }

  ghost function Prepend(tokens: Tokens, r: Result<Tokens>): Result<Tokens> {
    if r.Ok? then Ok(tokens + r.value) else r
  }

  lemma SplitTailUnfolds(s: string)
    ensures SplitTail(s) ==
      if !WellEscaped(Token(s)) then Err(DomainError)
      else if Token(s) == s then Ok([Unescape(s)])
      else Prepend([Unescape(Token(s))], SplitTail(s[|Token(s)| + 1..]))
  {
    hide WellEscaped, Unescape, Token;
  }

  lemma PrependTwice(tokens: Tokens, t: string, r: Result<Tokens>)
    ensures Prepend(tokens, Prepend([t], r)) == Prepend(tokens + [t], r)
  {
    if r.Ok? {
      assert tokens + ([t] + r.value) == tokens + [t] + r.value;
    }
  }

  lemma SplitStep(reference: string, tokens: Tokens, start: nat)
    requires SplitProgress(reference, tokens, start)
    ensures var slash := Find(reference, "/", start);
      var token := if slash == -1 then reference[start..] else reference[start..slash];
      if !WellEscaped(token) then Split(reference) == Err(DomainError)
      else if slash == -1 then Split(reference) == Ok(tokens + [Unescape(token)])
      else SplitProgress(reference, tokens + [Unescape(token)], slash + 1)
  {
    hide *;
    ProgressMeans(reference, tokens, start);
    var slash, tail := Find(reference, "/", start), reference[start..];
    TokenFind(reference, start);
    SplitTailUnfolds(tail);
    if WellEscaped(Token(tail)) {
      var u := Unescape(Token(tail));
      if slash != -1 {
        assert |Token(tail)| < |tail|;
        assert tail[|Token(tail)| + 1..] == reference[slash + 1..];
        PrependTwice(tokens, u, SplitTail(reference[slash + 1..]));
        ProgressMeans(reference, tokens + [u], slash + 1);
      } else {
        PrependOk(tokens, [u]);
      }
    } else {
      PrependErr(tokens, SplitTail(tail));
    }
  }

  lemma ProgressMeans(reference: string, tokens: Tokens, start: nat)
    ensures SplitProgress(reference, tokens, start) <==>
      1 <= start <= |reference| && Split(reference) == Prepend(tokens, SplitTail(reference[start..]))
  {
    hide Split, Prepend, SplitTail;
  }

  lemma PrependOk(tokens: Tokens, rest: Tokens)
    ensures Prepend(tokens, Ok(rest)) == Ok(tokens + rest)
  {
  }

  lemma PrependErr(tokens: Tokens, r: Result<Tokens>)
    requires r.Err?
    ensures Prepend(tokens, r) == r
  {
  }

  lemma SplitStart(reference: string)
    requires reference != "" && reference[0] == '/'
    ensures SplitProgress(reference, [], 1)
  {
    var rest := SplitTail(reference[1..]);
    assert rest.Ok? ==> [] + rest.value == rest.value;
  }

  lemma SplitBounds(reference: string, tokens: Tokens, start: nat)
    requires SplitProgress(reference, tokens, start)
    ensures 1 <= start <= |reference|
  {
  }

  /** The loop of `split`: `slash` is the next slash or npos, `start` the beginning of the token. */
  method SplitString(reference: string) returns (result: Result<Tokens>)
    ensures result == Split(reference)
  {
    if reference == "" {
      return Ok([]);
    }
    if reference[0] != '/' {
      return Err(DomainError);
    }
    var tokens: Tokens := [];
    var start := 1;
    var slash := Find(reference, "/", 1);
    SplitStart(reference);
    hide SplitProgress, Split, WellEscaped, Find, Replaced, OccursAt;
    while true
      invariant SplitProgress(reference, tokens, start) && slash == Find(reference, "/", start)
      decreases |reference| - start
    {
      SplitStep(reference, tokens, start);
      SplitBounds(reference, tokens, start);
      TokenFind(reference, start);
      var token := if slash == -1 then reference[start..] else reference[start..slash];
      var ok := CheckEscapes(token);
      if !ok {
        return Err(DomainError);
      }
      var once := ReplaceSubstring(token, "~1", "/");
      var unescaped := ReplaceSubstring(once, "~0", "~");
      tokens := tokens + [unescaped];
      if slash == -1 {
        return Ok(tokens);
      }
      start := slash + 1;
      slash := Find(reference, "/", start);
    }
  }
}
