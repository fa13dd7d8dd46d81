/** MobileServiceTable's string and dictionary helpers: entity-tag quoting
    (RFC 7232 section 2.3, with this library's backslash escaping of inner
    quotes), the If-Match header (RFC 7232 section 3.1), the system query
    parameters and the concatenation of a query with user parameters. */
module TableHelpers {
  import opened Common

  // ---------------------------------------------------------------------
  // Entity tags

  /** What `GetEtagFromValue` makes of the character at `j`: a quote not
      preceded by a backslash gets one inserted before it. */
  function Piece(v: string, j: nat): (p: string)
    requires j < |v|
    ensures p == [v[j]] || (p == "\\\"" && v[j] == '"')
    ensures p[|p| - 1] == v[j]
  {
    if v[j] == '"' && (j == 0 || v[j - 1] != '\\') then "\\\"" else [v[j]]
  }

  /** The quotes among the first `j` characters that get escaped. */
  function BareQuotes(v: string, j: nat): (n: nat)
    requires j <= |v|
    ensures n <= j
  {
    if j == 0 then 0 else BareQuotes(v, j - 1) + (if Piece(v, j - 1) == "\\\"" then 1 else 0)
  }

  /** The escaping of the first `j` characters of `v`. */
  function EscapeUpTo(v: string, j: nat): (r: string)
    requires j <= |v|
    ensures |r| == j + BareQuotes(v, j)
    ensures j > 0 ==> r[|r| - 1] == v[j - 1]
  {
    if j == 0 then [] else EscapeUpTo(v, j - 1) + Piece(v, j - 1)
  }

  function Escape(v: string): string
  {
    EscapeUpTo(v, |v|)
  }

  /** The entity tag `GetEtagFromValue` returns. */
  function Etag(v: string): string
  {
    "\"" + Escape(v) + "\""
  }

  /** Where the loop of `GetEtagFromValue` stands before character `j` of
      the original value: the escaped prefix, then the rest unchanged. */
  lemma EtagLoopView(v: string, j: nat)
    requires j < |v|
    ensures var value := EscapeUpTo(v, j) + v[j..]; var i := |EscapeUpTo(v, j)|;
      && i < |value| && value[i] == v[j]
      && (i == 0 <==> j == 0)
      && (i > 0 ==> value[i - 1] == v[j - 1])
  {
  }

  /** Passing over a character that is kept as it is. */
  lemma EtagLoopKeep(v: string, j: nat)
    requires j < |v| && Piece(v, j) == [v[j]]
    ensures EscapeUpTo(v, j) + v[j..] == EscapeUpTo(v, j + 1) + v[j + 1..]
  {
    assert v[j..] == [v[j]] + v[j + 1..];
  }

  /** Inserting the backslash before a bare quote. */
  lemma EtagLoopInsert(v: string, j: nat)
    requires j < |v|
    ensures var value := EscapeUpTo(v, j) + v[j..]; var i := |EscapeUpTo(v, j)|;
      value[..i] + "\\" + value[i..] == EscapeUpTo(v, j) + "\\" + v[j..]
  {
    var value := EscapeUpTo(v, j) + v[j..];
    var i := |EscapeUpTo(v, j)|;
    assert value[..i] == EscapeUpTo(v, j);
    assert value[i..] == v[j..];
  }

  /** Passing over the quote after an inserted backslash. */
  lemma EtagLoopEscaped(v: string, j: nat)
    requires j < |v| && Piece(v, j) == "\\\""
    ensures EscapeUpTo(v, j) + "\\" + v[j..] == EscapeUpTo(v, j + 1) + v[j + 1..]
  {
    assert v[j..] == [v[j]] + v[j + 1..];
  }

  /** Where the loop of `GetEtagFromValue` stands: before original
      character `j`, with the first `j` characters escaped; or (`mid`) just
      past a backslash inserted before the bare quote `j`. */
  ghost predicate EscapeLoop(v: string, j: nat, mid: bool, value: string, i: nat)
  {
    j <= |v| &&
    if mid then
      j < |v| && Piece(v, j) == "\\\"" && value == EscapeUpTo(v, j) + "\\" + v[j..] && i == |EscapeUpTo(v, j)| + 1
    else
      value == EscapeUpTo(v, j) + v[j..] && i == |EscapeUpTo(v, j)|
  }

  lemma EscapeLoopStart(v: string)
    ensures EscapeLoop(v, 0, false, v, 0)
  {
    assert v[0..] == v;
  }

  /** The loop inserts a backslash only before a character it has not yet
      passed, and that character is a bare quote. */
  lemma EscapeLoopInsert(v: string, j: nat, mid: bool, value: string, i: nat)
    requires EscapeLoop(v, j, mid, value, i) && i < |value|
    requires value[i] == '"' && (i == 0 || value[i - 1] != '\\')
    ensures !mid && EscapeLoop(v, j, true, value[..i] + "\\" + value[i..], i + 1)
  {
    assert !mid;
    EtagLoopView(v, j);
    EtagLoopInsert(v, j);
  }

  /** Any other step passes over one original character. */
  lemma EscapeLoopPass(v: string, j: nat, mid: bool, value: string, i: nat)
    requires EscapeLoop(v, j, mid, value, i) && i < |value|
    requires !(value[i] == '"' && (i == 0 || value[i - 1] != '\\'))
    ensures EscapeLoop(v, j + 1, false, value, i + 1)
  {
    if mid {
      EtagLoopEscaped(v, j);
    } else {
      assert |value| == |EscapeUpTo(v, j)| + |v| - j;
      EtagLoopView(v, j);
      EtagLoopKeep(v, j);
    }
  }

  /** The loop ends only before the end of the original value, with the
      whole value escaped. */
  lemma EscapeLoopDone(v: string, j: nat, mid: bool, value: string, i: nat)
    requires EscapeLoop(v, j, mid, value, i) && i >= |value|
    ensures value == Escape(v)
  {
    assert !mid;
    assert j == |v|;
    assert v[|v|..] == [];
  }

  /** The loop of `GetEtagFromValue`: walks the value, inserting a
      backslash before each quote that is not already preceded by one (the
      index then passes over the inserted backslash and the quote). */
  method EscapeQuotes(v: string) returns (value: string)
    ensures value == Escape(v)
  {
    value := v;
    var i := 0;
    ghost var j := 0;
    ghost var mid := false;
    EscapeLoopStart(v);
    while i < |value|
      invariant EscapeLoop(v, j, mid, value, i)
      decreases |value| - i, if mid then 0 else 1
    {
      if value[i] == '"' && (i == 0 || value[i - 1] != '\\') {
        EscapeLoopInsert(v, j, mid, value, i);
        value := value[..i] + "\\" + value[i..];
        mid := true;
      } else {
        EscapeLoopPass(v, j, mid, value, i);
        j := j + 1;
        mid := false;
      }
      i := i + 1;
    }
    EscapeLoopDone(v, j, mid, value, i);
  }

  /** `GetEtagFromValue(value)`: the escaped value, in quotes. */
  method GetEtagFromValue(v: string) returns (etag: string)
    ensures etag == Etag(v)
    ensures |etag| == |v| + 2 + BareQuotes(v, |v|)
    ensures etag[0] == '"' && etag[|etag| - 1] == '"'
  {
    var value := EscapeQuotes(v);
    etag := "\"" + value + "\"";
  }

  /** `Replace("\\\"", "\"")`: every backslash-quote pair, scanned from the
      left without overlap, becomes a quote. */
  function Unescape(s: string): (r: string)
    ensures |r| <= |s|
  {
    if |s| >= 2 && s[0] == '\\' && s[1] == '"' then "\"" + Unescape(s[2..])
    else if s == [] then []
    else [s[0]] + Unescape(s[1..])
  }

  /** `GetValueFromEtag(etag)`: one surrounding pair of quotes is removed
      when there is one, then the inner quotes are unescaped. */
  function GetValueFromEtag(etag: string): (v: string)
    ensures |etag| > 1 && etag[0] == '"' && etag[|etag| - 1] == '"' ==> v == Unescape(etag[1..|etag| - 1])
    ensures !(|etag| > 1 && etag[0] == '"' && etag[|etag| - 1] == '"') ==> v == Unescape(etag)
  {
    var inner := if |etag| > 1 && etag[0] == '"' && etag[|etag| - 1] == '"' then etag[1..|etag| - 1] else etag;
    Unescape(inner)
  }

  /** `s` has a backslash immediately followed by a quote. */
  predicate HasEscapedQuote(s: string)
  {
    exists k :: 0 <= k < |s| - 1 && s[k] == '\\' && s[k + 1] == '"'
  }

  /** Every quote of an escaped value is preceded by a backslash. */
  lemma {:induction false} EscapedQuotesAreEscaped(v: string, j: nat)
    requires j <= |v|
    ensures forall k :: 0 <= k < |EscapeUpTo(v, j)| && EscapeUpTo(v, j)[k] == '"' ==> k > 0 && EscapeUpTo(v, j)[k - 1] == '\\'
  {
    if j > 0 {
      EscapedQuotesAreEscaped(v, j - 1);
      var a := EscapeUpTo(v, j - 1);
      var r := EscapeUpTo(v, j);
      assert r == a + Piece(v, j - 1);
      forall k | 0 <= k < |r| && r[k] == '"'
        ensures k > 0 && r[k - 1] == '\\'
      {
        if k < |a| {
          assert r[k] == a[k] && (k > 0 ==> r[k - 1] == a[k - 1]);
        } else if Piece(v, j - 1) == "\\\"" {
          assert r[|a|] == '\\';
        } else {
          assert k == |a| && v[j - 1] == '"';
          assert j - 1 > 0 && v[j - 2] == '\\';
          assert a[|a| - 1] == v[j - 2];
        }
      }
    }
  }

  /** `Unescape` distributes over a concatenation unless the cut separates
      a backslash from the quote after it. */
  lemma {:induction false} UnescapeConcat(a: string, b: string)
    requires !(|a| > 0 && a[|a| - 1] == '\\' && |b| > 0 && b[0] == '"')
    ensures Unescape(a + b) == Unescape(a) + Unescape(b)
    decreases |a|
  {
    if a == [] {
      assert a + b == b;
    } else if |a| >= 2 && a[0] == '\\' && a[1] == '"' {
      var ab := a + b;
      assert ab[0] == '\\' && ab[1] == '"';
      assert ab[2..] == a[2..] + b;
      assert Unescape(ab) == "\"" + Unescape(a[2..] + b);
      assert Unescape(a) == "\"" + Unescape(a[2..]);
      UnescapeConcat(a[2..], b);
      ConcatAssoc("\"", Unescape(a[2..]), Unescape(b));
    } else {
      var ab := a + b;
      assert ab[0] == a[0];
      assert !(|ab| >= 2 && ab[0] == '\\' && ab[1] == '"') by {
        if |a| >= 2 {
          assert ab[1] == a[1];
        }
      }
      assert ab[1..] == a[1..] + b;
      assert Unescape(ab) == [a[0]] + Unescape(a[1..] + b);
      assert Unescape(a) == [a[0]] + Unescape(a[1..]);
      UnescapeConcat(a[1..], b);
      ConcatAssoc([a[0]], Unescape(a[1..]), Unescape(b));
    }
  }

  /** Unescaping what one character became gives the character. */
  lemma UnescapePiece(v: string, j: nat)
    requires j < |v|
    ensures Unescape(Piece(v, j)) == [v[j]]
  {
    var p := Piece(v, j);
    if p == "\\\"" {
      assert p[2..] == [];
      assert Unescape(p) == "\"" + Unescape([]);
    } else {
      assert p[1..] == [];
      assert Unescape(p) == [v[j]] + Unescape([]);
    }
  }

  lemma NoEscapedQuoteAt(v: string, k: nat)
    requires !HasEscapedQuote(v) && k + 1 < |v|
    ensures !(v[k] == '\\' && v[k + 1] == '"')
  {
  }

  /** Unescaping the escaping of a prefix gives the prefix back, when the
      value has no backslash-quote pair of its own. */
  lemma {:induction false} UnescapeEscapeUpTo(v: string, j: nat)
    requires j <= |v| && !HasEscapedQuote(v)
    ensures Unescape(EscapeUpTo(v, j)) == v[..j]
  {
    if j > 0 {
      UnescapeEscapeUpTo(v, j - 1);
      UnescapeEscapeStep(v, j - 1);
    }
  }

  /** One more character escaped and unescaped extends the prefix by it. */
  lemma UnescapeEscapeStep(v: string, j: nat)
    requires j < |v| && !HasEscapedQuote(v)
    requires Unescape(EscapeUpTo(v, j)) == v[..j]
    ensures Unescape(EscapeUpTo(v, j + 1)) == v[..j + 1]
  {
    var a := EscapeUpTo(v, j);
    var p := Piece(v, j);
    CleanCut(v, j);
    calc {
      Unescape(EscapeUpTo(v, j + 1));
      Unescape(a + p);
      { UnescapeConcat(a, p); }
      Unescape(a) + Unescape(p);
      { UnescapePiece(v, j); }
      v[..j] + [v[j]];
      v[..j + 1];
    }
  }

  /** The escaping of a prefix never ends in a backslash that the next
      character's escaping would pair with a quote. */
  lemma CleanCut(v: string, j: nat)
    requires j < |v| && !HasEscapedQuote(v)
    ensures var a := EscapeUpTo(v, j); var p := Piece(v, j);
      !(|a| > 0 && a[|a| - 1] == '\\' && |p| > 0 && p[0] == '"')
  {
    if j >= 1 {
      NoEscapedQuoteAt(v, j - 1);
    }
  }

  /** Round trip: a value without a backslash-quote pair comes back from
      its entity tag unchanged. */
  lemma EtagRoundTrip(v: string)
    requires !HasEscapedQuote(v)
    ensures GetValueFromEtag(Etag(v)) == v
  {
    var e := Etag(v);
    assert e[1..|e| - 1] == Escape(v);
    UnescapeEscapeUpTo(v, |v|);
    assert v[..|v|] == v;
  }

  /** The round trip fails for a value holding a backslash-quote pair:
      the backslash it already has is taken for an escape. */
  lemma EtagLosesEscapedQuote()
    ensures Etag("\\\"") == "\"\\\"\""
    ensures GetValueFromEtag(Etag("\\\"")) == "\""
  {
    var v := "\\\"";
    assert Piece(v, 0) == "\\" && Piece(v, 1) == "\"";
    assert EscapeUpTo(v, 2) == EscapeUpTo(v, 1) + "\"";
    var e := "\"\\\"\"";
    assert e[1..|e| - 1] == "\\\"";
    assert Unescape("\\\"") == "\"" + Unescape([]);
  }

  /** An escaped value ends in the value's last character, so the closing
      quote of a tag is never preceded by an inserted backslash. */
  lemma EtagShape(v: string)
    ensures |Etag(v)| == |v| + 2 + BareQuotes(v, |v|)
    ensures Etag(v)[0] == '"' && Etag(v)[|Etag(v)| - 1] == '"'
    ensures Etag(v)[1..|Etag(v)| - 1] == Escape(v)
  {
  }

  // ---------------------------------------------------------------------
  // If-Match header

  const IfMatch := "If-Match"

  /** `AddIfMatchHeader(version)`: no headers for a missing or empty
      version, otherwise the one header `If-Match` holding its tag. */
  function AddIfMatchHeader(version: Option<string>): (h: Option<map<string, string>>)
    ensures h.None? <==> version.None? || version.value == ""
    ensures h.Some? ==> h.value.Keys == {IfMatch} && h.value[IfMatch] == Etag(version.value)
  {
    if version.None? || version.value == "" then None else Some(map[IfMatch := Etag(version.value)])
  }

  /** The server reading the header back recovers the version, for a
      version without a backslash-quote pair. */
  lemma IfMatchRecoversVersion(version: string)
    requires version != "" && !HasEscapedQuote(version)
    ensures var h := AddIfMatchHeader(Some(version));
      h.Some? && GetValueFromEtag(h.value[IfMatch]) == version
  {
    EtagRoundTrip(version);
  }

  // ---------------------------------------------------------------------
  // System query parameters

  const IncludeDeletedParameterName := "__includeDeleted"

  /** Ordinal case-insensitive comparison, on ASCII letters. */
  function FoldChar(c: char): (d: char)
    ensures 'A' <= c <= 'Z' ==> d as int == c as int + 32
    ensures !('A' <= c <= 'Z') ==> d == c
  {
    if 'A' <= c <= 'Z' then (c as int + 32) as char else c
  }

  function Fold(s: string): string
  {
    seq(|s|, k requires 0 <= k < |s| => FoldChar(s[k]))
  }

  /** Two keys of `p` that an ordinal case-insensitive dictionary cannot
      both hold. */
  ghost predicate CaseCollision(p: map<string, string>)
  {
    exists a, b :: a in p && b in p && a != b && Fold(a) == Fold(b)
  }

  /** `p` has a key equal to `name` ignoring case. */
  predicate HasKeyIgnoringCase(p: map<string, string>, name: string)
  {
    exists k :: k in p && Fold(k) == Fold(name)
  }

  datatype ParameterError = DuplicateKeyIgnoringCase

  /** `AddSystemParameter(parameters, name, value)`: copies the parameters
      into a case-insensitive dictionary (which throws on keys equal but for
      case), then adds `name -> value` unless a user parameter of that name
      exists or there is no value. With no parameters, a value makes a new
      one-entry dictionary. */
  method AddSystemParameter(parameters: Option<map<string, string>>, name: string, value: Option<string>)
    returns (r: Result<Option<map<string, string>>, ParameterError>)
    ensures parameters.None? ==> r == Success(if value.Some? then Some(map[name := value.value]) else None)
    ensures parameters.Some? ==> (r.Failure? <==> CaseCollision(parameters.value))
    ensures parameters.Some? && r.Success? ==>
      var p := parameters.value;
      && r.value.Some?
      && (forall k :: k in p ==> k in r.value.value && r.value.value[k] == p[k])
      && (HasKeyIgnoringCase(p, name) || value.None? ==> r.value.value == p)
      && (!HasKeyIgnoringCase(p, name) && value.Some? ==> r.value.value == p[name := value.value])
  {
    if parameters.None? {
      return Success(if value.Some? then Some(map[name := value.value]) else None);
    }
    var p := parameters.value;
    var copy: map<string, string> := map[];
    var rest := p.Keys;
    while rest != {}
      invariant rest <= p.Keys
      invariant copy.Keys == p.Keys - rest
      invariant forall k :: k in copy ==> copy[k] == p[k]
      invariant forall a, b :: a in copy && b in copy && a != b ==> Fold(a) != Fold(b)
      decreases |rest|
    {
      var k :| k in rest;
      if HasKeyIgnoringCase(copy, k) {
        ghost var c :| c in copy && Fold(c) == Fold(k);
        assert c in p && k in p && c != k;
        return Failure(DuplicateKeyIgnoringCase);
      }
      copy := copy[k := p[k]];
      rest := rest - {k};
    }
    assert copy == p;
    if !HasKeyIgnoringCase(copy, name) && value.Some? {
      copy := copy[name := value.value];
    }
    r := Success(Some(copy));
  }

  /** `IncludeDeleted(parameters)`: asks for soft-deleted records too,
      unless the caller set the parameter already. */
  method IncludeDeleted(parameters: Option<map<string, string>>) returns (r: Result<Option<map<string, string>>, ParameterError>)
    ensures parameters.None? ==> r == Success(Some(map[IncludeDeletedParameterName := "true"]))
    ensures parameters.Some? ==> (r.Failure? <==> CaseCollision(parameters.value))
    ensures parameters.Some? && r.Success? ==>
      var p := parameters.value;
      && r.value.Some?
      && (HasKeyIgnoringCase(p, IncludeDeletedParameterName) ==> r.value.value == p)
      && (!HasKeyIgnoringCase(p, IncludeDeletedParameterName) ==> r.value.value == p[IncludeDeletedParameterName := "true"])
  {
    r := AddSystemParameter(parameters, IncludeDeletedParameterName, Some("true"));
  }

  /** Adding the parameter keeps the result free of case collisions, so a
      second `IncludeDeleted` on it succeeds and changes nothing. */
  lemma {:induction false} IncludeDeletedIdempotent(p: map<string, string>)
    requires !CaseCollision(p)
    ensures var q := if HasKeyIgnoringCase(p, IncludeDeletedParameterName) then p else p[IncludeDeletedParameterName := "true"];
      !CaseCollision(q) && HasKeyIgnoringCase(q, IncludeDeletedParameterName)
  {
    var n := IncludeDeletedParameterName;
    if !HasKeyIgnoringCase(p, n) {
      var q := p[n := "true"];
      assert n in q && Fold(n) == Fold(n);
      forall a, b | a in q && b in q && a != b
        ensures Fold(a) != Fold(b)
      {
        if a == n {
          assert b in p;
        } else if b == n {
          assert a in p;
        } else {
          assert a in p && b in p;
        }
      }
    }
  }

  /** `IncludeDeleted` applied to its own result: once the first call has
      succeeded, the second one succeeds with the same parameters. When the
      first call fails there is nothing to apply it to, and `second` repeats
      that failure. */
  method IncludeDeletedTwice(parameters: Option<map<string, string>>)
    returns (first: Result<Option<map<string, string>>, ParameterError>, second: Result<Option<map<string, string>>, ParameterError>)
    ensures first.Success? ==> second == first
  {
    first := IncludeDeleted(parameters);
    if first.Failure? {
      second := first;
      return;
    }
    match parameters {
      case None =>
        IncludeDeletedIdempotent(map[]);
        assert map[][IncludeDeletedParameterName := "true"] == map[IncludeDeletedParameterName := "true"];
      case Some(p) =>
        IncludeDeletedIdempotent(p);
    }
    second := IncludeDeleted(first.value);
  }

  // ---------------------------------------------------------------------
  // Query string

  /** The read query with the user's parameter string appended: with no
      parameters the query is kept, with no query the parameters are used,
      and otherwise they are joined by `&`. */
  function ConcatQuery(query: Option<string>, parameters: Option<string>): (r: Option<string>)
    ensures parameters.None? || parameters.value == "" ==> r == query
    ensures parameters.Some? && parameters.value != "" && (query.None? || query.value == "") ==> r == parameters
    ensures parameters.Some? && parameters.value != "" && query.Some? && query.value != "" ==>
      && r.Some? && |r.value| == |query.value| + 1 + |parameters.value|
      && r.value[..|query.value|] == query.value
      && r.value[|query.value|] == '&'
      && r.value[|query.value| + 1..] == parameters.value
  {
    if parameters.None? || parameters.value == "" then query
    else if query.None? || query.value == "" then parameters
    else Some(query.value + "&" + parameters.value)
  }
}
