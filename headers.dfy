/**
 * Header selection and the header-fingerprint cache key.
 *
 * A lookup keeps, for each important header name (in the server-declared
 * order), the value of the caller's header with that name, under the
 * important spelling, and drops empty values. `LookupHeaders` matches names
 * up to ASCII case; `LookupRequest` reads `http.Header`, which looks a name
 * up only under its canonical spelling. The cache key
 * concatenates, in important-header order, the values stored under the exact
 * important names, and is then digested.
 */
module Headers {
  import opened Text

  /**
   * No two names of `h` differ only in case. Go ranges over the map in an
   * unspecified order, so without this the copy that lands in the lower-cased
   * map would not be determined.
   */
  ghost predicate CaseDistinct<V>(h: map<string, V>) {
    forall k1, k2 :: k1 in h && k2 in h && Lower(k1) == Lower(k2) ==> k1 == k2
  }

  /** The value of the header of `h` named `name` up to case, or "" when there is none. */
  ghost function HeaderValue(h: map<string, string>, name: string): string
    requires CaseDistinct(h)
  {
    if exists k :: k in h && Lower(k) == Lower(name) then
      var k :| k in h && Lower(k) == Lower(name); h[k]
    else ""
  }

  /** The headers a lookup sends: important names with a non-empty matching value. */
  ghost function Selection(important: seq<string>, h: map<string, string>): map<string, string>
    requires CaseDistinct(h)
  {
    map name | name in important && HeaderValue(h, name) != "" :: HeaderValue(h, name)
  }

  /** `h` with every name lower-cased: the first loop of `LookupHeaders`. */
  function LowerKeyed(h: map<string, string>): map<string, string>
    requires CaseDistinct(h)
  {
    LowerKeyedOn(h, h.Keys)
  }

  function LowerKeyedOn(h: map<string, string>, names: set<string>): map<string, string>
    requires CaseDistinct(h) && names <= h.Keys
  {
    map k | k in names :: Lower(k) := h[k]
  }

  /** `http.Header.Get` reads the first of a header's values. */
  function FirstValues(header: map<string, seq<string>>): (h: map<string, string>)
    ensures h.Keys == header.Keys
  {
    map k | k in header :: if |header[k]| > 0 then header[k][0] else ""
  }

  lemma FirstValuesCaseDistinct(header: map<string, seq<string>>)
    requires CaseDistinct(header)
    ensures CaseDistinct(FirstValues(header))
  {
  }

  /** Building the lower-cased map: one name at a time, in any order. */
  method LowerKeys(h: map<string, string>) returns (lowered: map<string, string>)
    requires CaseDistinct(h)
    ensures lowered == LowerKeyed(h)
  {
    lowered := map[];
    var rest := h.Keys;
    while rest != {}
      invariant rest <= h.Keys
      invariant lowered == LowerKeyedOn(h, h.Keys - rest)
      decreases rest
    {
      var k :| k in rest;
      ghost var done := h.Keys - rest;
      lowered := lowered[Lower(k) := h[k]];
      rest := rest - {k};
      assert h.Keys - rest == done + {k};
      assert lowered == LowerKeyedOn(h, done + {k});
    }
    assert h.Keys - rest == h.Keys;
  }

  /** In the lower-cased map, a lower-cased name finds the header's value. */
  lemma LowerKeyedFinds(h: map<string, string>, name: string)
    requires CaseDistinct(h)
    ensures (if Lower(name) in LowerKeyed(h) then LowerKeyed(h)[Lower(name)] else "") == HeaderValue(h, name)
  {
    if exists k :: k in h && Lower(k) == Lower(name) {
      var k :| k in h && Lower(k) == Lower(name);
      assert Lower(name) in LowerKeyed(h);
    }
  }

  lemma SelectionSnoc(important: seq<string>, name: string, h: map<string, string>)
    requires CaseDistinct(h)
    ensures Selection(important + [name], h)
         == if HeaderValue(h, name) != "" then Selection(important, h)[name := HeaderValue(h, name)]
            else Selection(important, h)
  {
  }

  /** The copy loop of `LookupHeaders`, reading the lower-cased map. */
  method SelectLowered(important: seq<string>, ghost h: map<string, string>, lowered: map<string, string>)
    returns (selected: map<string, string>)
    requires CaseDistinct(h) && lowered == LowerKeyed(h)
    ensures selected == Selection(important, h)
  {
    selected := map[];
    var i := 0;
    while i < |important|
      invariant 0 <= i <= |important|
      invariant selected == Selection(important[..i], h)
    {
      var name := important[i];
      var v := if Lower(name) in lowered then lowered[Lower(name)] else "";
      LowerKeyedFinds(h, name);
      if v != "" {
        selected := selected[name := v];
      }
      SelectionSnoc(important[..i], name, h);
      assert important[..i + 1] == important[..i] + [name];
      i := i + 1;
    }
    assert important[..i] == important;
  }

  // ------------------------------------------------ canonical header keys

  /** A character allowed in a header field name: a token character of section 3.2.6 of RFC 7230. */
  predicate IsTokenChar(c: char) {
    || ('a' <= c <= 'z') || ('A' <= c <= 'Z') || ('0' <= c <= '9')
    || c == '!' || c == '#' || c == '$' || c == '%' || c == '&' || c == '\'' || c == '*'
    || c == '+' || c == '-' || c == '.' || c == '^' || c == '_' || c == '`' || c == '|' || c == '~'
  }

  predicate IsToken(s: string) {
    forall i :: 0 <= i < |s| ==> IsTokenChar(s[i])
  }

  /** ASCII upper-casing of one character. */
  function UpperChar(c: char): (d: char)
    ensures LowerChar(d) == LowerChar(c)
    ensures IsTokenChar(d) == IsTokenChar(c)
  {
    if 'a' <= c <= 'z' then (c as int - 32) as char else c
  }

  /** The canonical spelling of one character, upper-cased after `prev` = '-' or at the start. */
  function CanonicalChar(c: char, first: bool): (d: char)
    ensures LowerChar(d) == LowerChar(c)
    ensures IsTokenChar(d) == IsTokenChar(c) && (d == '-' <==> c == '-')
  {
    if first then UpperChar(c) else LowerChar(c)
  }

  /**
   * `textproto.CanonicalMIMEHeaderKey`, which `http.Header` applies to every
   * name it reads: the first character and each one after a '-' upper-cased,
   * all others lower-cased; a name holding a character outside the token set
   * is left as it is. Only letter case ever changes.
   */
  function Canonical(name: string): (r: string)
    ensures |r| == |name|
    ensures Lower(r) == Lower(name)
    ensures !IsToken(name) ==> r == name
  {
    if IsToken(name) then CanonicalSpelling(name) else name
  }

  /** Each character of `name` in its canonical spelling. */
  function CanonicalSpelling(name: string): (r: string)
    ensures |r| == |name|
    ensures forall i :: 0 <= i < |name| ==> r[i] == CanonicalChar(name[i], i == 0 || name[i - 1] == '-')
    ensures Lower(r) == Lower(name)
  {
    var r := seq(|name|, i requires 0 <= i < |name| => CanonicalChar(name[i], i == 0 || name[i - 1] == '-'));
    assert forall i :: 0 <= i < |r| ==> Lower(r)[i] == Lower(name)[i];
    r
  }

  lemma CanonicalCharIdempotent(c: char, first: bool)
    ensures CanonicalChar(CanonicalChar(c, first), first) == CanonicalChar(c, first)
  {
  }

  lemma CanonicalCharUpToCase(c: char, d: char, first: bool)
    requires SameUpToCase(c, d)
    ensures CanonicalChar(c, first) == CanonicalChar(d, first)
    ensures IsTokenChar(c) == IsTokenChar(d) && (c == '-' <==> d == '-')
  {
  }

  /** A canonical name is its own canonical form. */
  lemma CanonicalIdempotent(name: string)
    ensures Canonical(Canonical(name)) == Canonical(name)
  {
    if IsToken(name) {
      var r := Canonical(name);
      forall i | 0 <= i < |r| ensures IsTokenChar(r[i]) && (r[i] == '-' <==> name[i] == '-') {
      }
      assert IsToken(r);
      var r2 := Canonical(r);
      forall i | 0 <= i < |r| ensures r2[i] == r[i] {
        var first := i == 0 || name[i - 1] == '-';
        assert r[i] == CanonicalChar(name[i], first);
        assert r2[i] == CanonicalChar(r[i], first);
        CanonicalCharIdempotent(name[i], first);
      }
    }
  }

  /** Token names that agree up to case have the same canonical form. */
  lemma CanonicalOfSameLower(a: string, b: string)
    requires IsToken(a) && Lower(a) == Lower(b)
    ensures IsToken(b) && Canonical(a) == Canonical(b)
  {
    LowerEqualIffSameUpToCase(a, b);
    forall i | 0 <= i < |b| ensures IsTokenChar(b[i]) && (a[i] == '-' <==> b[i] == '-') {
      CanonicalCharUpToCase(a[i], b[i], true);
    }
    assert IsToken(b);
    var ca, cb := Canonical(a), Canonical(b);
    forall i | 0 <= i < |a| ensures ca[i] == cb[i] {
      var first := i == 0 || a[i - 1] == '-';
      assert ca[i] == CanonicalChar(a[i], first);
      assert cb[i] == CanonicalChar(b[i], first);
      CanonicalCharUpToCase(a[i], b[i], first);
    }
  }

  /** `http.Header.Get(name)`: the first value stored under the canonical form of `name`, or "". */
  function HeaderGet(header: map<string, seq<string>>, name: string): (v: string)
    ensures v != "" ==> var k := Canonical(name); k in header && Lower(k) == Lower(name) && |header[k]| > 0 && header[k][0] == v
    ensures (forall k :: k in header ==> Lower(k) != Lower(name)) ==> v == ""
  {
    var key := Canonical(name);
    if key in header && |header[key]| > 0 then header[key][0] else ""
  }

  /**
   * On a header whose names are stored in canonical form, as `net/http`
   * stores them, `Get` of a token name finds the first value of the header
   * with that name up to case.
   */
  lemma HeaderGetOnCanonicalKeys(header: map<string, seq<string>>, name: string)
    requires CaseDistinct(header) && IsToken(name)
    requires forall k :: k in header ==> Canonical(k) == k
    ensures CaseDistinct(FirstValues(header))
    ensures HeaderGet(header, name) == HeaderValue(FirstValues(header), name)
  {
    FirstValuesCaseDistinct(header);
    var h := FirstValues(header);
    if k :| k in header && Lower(k) == Lower(name) {
      CanonicalOfSameLower(name, k);
      HeaderValueAt(h, name, k);
    } else {
      HeaderValueAbsent(h, name);
    }
  }

  /** A name stored in another spelling than the canonical one is not found by `Get`. */
  lemma HeaderGetMissesOtherSpelling()
    ensures HeaderGet(map["user-agent" := ["X"]], "User-Agent") == ""
    ensures HeaderValue(FirstValues(map["user-agent" := ["X"]]), "User-Agent") == "X"
  {
    var name, stored := "User-Agent", "user-agent";
    assert Canonical(name)[0] == 'U' != stored[0];
    forall i | 0 <= i < |stored| ensures SameUpToCase(stored[i], name[i]) {
    }
    LowerEqualIffSameUpToCase(stored, name);
    HeaderValueAt(FirstValues(map[stored := ["X"]]), name, stored);
  }

  /** The headers `LookupRequest` sends: each important name whose `Get` is non-empty. */
  function RequestSelection(important: seq<string>, header: map<string, seq<string>>): map<string, string> {
    map name | name in important && HeaderGet(header, name) != "" :: HeaderGet(header, name)
  }

  /**
   * What `LookupRequest` selects: only important names, each with the
   * non-empty first value of a header of that name up to case; and every
   * important name whose canonical key holds a non-empty first value.
   */
  lemma RequestSelectionMeaning(important: seq<string>, header: map<string, seq<string>>)
    ensures forall name :: name in RequestSelection(important, header) ==>
      && name in important && RequestSelection(important, header)[name] != ""
      && exists k :: k in header && Lower(k) == Lower(name) && |header[k]| > 0
                     && header[k][0] == RequestSelection(important, header)[name]
    ensures forall name :: name in important && Canonical(name) in header
                           && |header[Canonical(name)]| > 0 && header[Canonical(name)][0] != "" ==>
      name in RequestSelection(important, header)
      && RequestSelection(important, header)[name] == header[Canonical(name)][0]
  {
  }

  /**
   * With canonically stored names, distinct up to case, and token important
   * names, `LookupRequest` selects what `LookupHeaders` selects from the
   * first values.
   */
  lemma RequestSelectionOnCanonicalKeys(important: seq<string>, header: map<string, seq<string>>)
    requires CaseDistinct(header) && forall k :: k in header ==> Canonical(k) == k
    requires forall n :: n in important ==> IsToken(n)
    ensures CaseDistinct(FirstValues(header))
    ensures RequestSelection(important, header) == Selection(important, FirstValues(header))
  {
    FirstValuesCaseDistinct(header);
    forall name | name in important ensures HeaderGet(header, name) == HeaderValue(FirstValues(header), name) {
      HeaderGetOnCanonicalKeys(header, name);
    }
  }

  lemma RequestSelectionSnoc(important: seq<string>, name: string, header: map<string, seq<string>>)
    ensures RequestSelection(important + [name], header)
         == if HeaderGet(header, name) != "" then RequestSelection(important, header)[name := HeaderGet(header, name)]
            else RequestSelection(important, header)
  {
  }

  /** The copy loop of `LookupRequest`, reading the request's headers with `Get`. */
  method SelectFromHeader(important: seq<string>, header: map<string, seq<string>>)
    returns (selected: map<string, string>)
    ensures selected == RequestSelection(important, header)
  {
    selected := map[];
    var i := 0;
    while i < |important|
      invariant 0 <= i <= |important|
      invariant selected == RequestSelection(important[..i], header)
    {
      var name := important[i];
      var v := HeaderGet(header, name);
      if v != "" {
        selected := selected[name := v];
      }
      RequestSelectionSnoc(important[..i], name, header);
      assert important[..i + 1] == important[..i] + [name];
      i := i + 1;
    }
    assert important[..i] == important;
  }

  // ------------------------------------------------- selection properties

  /**
   * What a selection holds: only important names, each with the non-empty
   * value of the caller's header of that name up to case; and every
   * important name whose header has a non-empty value is there.
   */
  lemma SelectionMeaning(important: seq<string>, h: map<string, string>)
    requires CaseDistinct(h)
    ensures forall name :: name in Selection(important, h) ==>
      && name in important && Selection(important, h)[name] != ""
      && exists k :: k in h && Lower(k) == Lower(name) && h[k] == Selection(important, h)[name]
    ensures forall name, k :: name in important && k in h && Lower(k) == Lower(name) && h[k] != "" ==>
      name in Selection(important, h) && Selection(important, h)[name] == h[k]
  {
  }

  /** `h` with every name respelled by `respell`, which changes letter case only. */
  function Respelled(h: map<string, string>, respell: string -> string): map<string, string>
    requires CaseDistinct(h)
    requires forall k :: Lower(respell(k)) == Lower(k)
  {
    map k | k in h :: respell(k) := h[k]
  }

  lemma RespelledCaseDistinct(h: map<string, string>, respell: string -> string)
    requires CaseDistinct(h)
    requires forall k :: Lower(respell(k)) == Lower(k)
    ensures CaseDistinct(Respelled(h, respell))
  {
    var g := Respelled(h, respell);
    forall k1, k2 | k1 in g && k2 in g && Lower(k1) == Lower(k2) ensures k1 == k2 {
      var j1 :| j1 in h && respell(j1) == k1;
      var j2 :| j2 in h && respell(j2) == k2;
      assert Lower(j1) == Lower(j2);
    }
  }

  lemma HeaderValueAt(h: map<string, string>, name: string, k: string)
    requires CaseDistinct(h) && k in h && Lower(k) == Lower(name)
    ensures HeaderValue(h, name) == h[k]
  {
  }

  lemma HeaderValueAbsent(h: map<string, string>, name: string)
    requires CaseDistinct(h) && forall k :: k in h ==> Lower(k) != Lower(name)
    ensures HeaderValue(h, name) == ""
  {
  }

  /** A respelled header keeps its value. */
  lemma RespelledAt(h: map<string, string>, respell: string -> string, k: string)
    requires CaseDistinct(h)
    requires forall k :: Lower(respell(k)) == Lower(k)
    requires k in h
    ensures respell(k) in Respelled(h, respell) && Respelled(h, respell)[respell(k)] == h[k]
  {
    var g := Respelled(h, respell);
    assert respell(k) in g;
    var j :| j in h && respell(j) == respell(k) && g[respell(k)] == h[j];
    assert Lower(j) == Lower(k);
  }

  lemma RespelledValue(h: map<string, string>, respell: string -> string, name: string)
    requires CaseDistinct(h)
    requires forall k :: Lower(respell(k)) == Lower(k)
    requires CaseDistinct(Respelled(h, respell))
    ensures HeaderValue(Respelled(h, respell), name) == HeaderValue(h, name)
  {
    var g := Respelled(h, respell);
    if k :| k in h && Lower(k) == Lower(name) {
      RespelledAt(h, respell, k);
      HeaderValueAt(h, name, k);
      HeaderValueAt(g, name, respell(k));
    } else {
      forall k' | k' in g ensures Lower(k') != Lower(name) {
        var j :| j in h && respell(j) == k';
      }
      HeaderValueAbsent(h, name);
      HeaderValueAbsent(g, name);
    }
  }

  /** Changing the letter case of the caller's header names changes nothing. */
  lemma SelectionIgnoresCase(important: seq<string>, h: map<string, string>, respell: string -> string)
    requires CaseDistinct(h)
    requires forall k :: Lower(respell(k)) == Lower(k)
    ensures CaseDistinct(Respelled(h, respell))
    ensures Selection(important, Respelled(h, respell)) == Selection(important, h)
  {
    RespelledCaseDistinct(h, respell);
    forall name ensures HeaderValue(Respelled(h, respell), name) == HeaderValue(h, name) {
      RespelledValue(h, respell, name);
    }
  }

  /** Headers whose names match no important name, up to case, change nothing. */
  lemma SelectionIgnoresExtras(important: seq<string>, h: map<string, string>, extra: map<string, string>)
    requires CaseDistinct(h) && CaseDistinct(h + extra)
    requires forall k, n :: k in extra && n in important ==> Lower(k) != Lower(n)
    ensures Selection(important, h + extra) == Selection(important, h)
  {
    var g := h + extra;
    forall name | name in important ensures HeaderValue(g, name) == HeaderValue(h, name) {
      if exists k :: k in h && Lower(k) == Lower(name) {
        var k :| k in h && Lower(k) == Lower(name);
        assert k !in extra;
        assert k in g && g[k] == h[k];
      } else {
        forall k | k in g ensures Lower(k) != Lower(name) {
          if k !in extra {
            assert k in h;
          }
        }
      }
    }
  }

  // -------------------------------------------------------- key material

  /** A header value by exact name, "" when absent (a Go map read). */
  function ValueOrEmpty(h: map<string, string>, name: string): string {
    if name in h then h[name] else ""
  }

  /** The string `getUserAgentCacheKey` digests: values in important-header order. */
  function KeyMaterial(important: seq<string>, h: map<string, string>): string {
    if important == [] then ""
    else KeyMaterial(important[..|important| - 1], h) + ValueOrEmpty(h, important[|important| - 1])
  }

  /** The key material reads `h` only at the important names. */
  lemma {:induction false} KeyMaterialReadsImportantOnly(important: seq<string>, h1: map<string, string>, h2: map<string, string>)
    requires forall n :: n in important ==> ValueOrEmpty(h1, n) == ValueOrEmpty(h2, n)
    ensures KeyMaterial(important, h1) == KeyMaterial(important, h2)
    decreases |important|
  {
    if important != [] {
      var init := important[..|important| - 1];
      assert forall n :: n in init ==> n in important;
      KeyMaterialReadsImportantOnly(init, h1, h2);
    }
  }

  /** Extra headers never change the key material. */
  lemma KeyMaterialIgnoresExtras(important: seq<string>, h: map<string, string>, extra: map<string, string>)
    requires forall n :: n in extra ==> n !in important
    ensures KeyMaterial(important, h + extra) == KeyMaterial(important, h)
  {
    KeyMaterialReadsImportantOnly(important, h + extra, h);
  }

  /**
   * Values are joined without a separator, so the material does not
   * determine the headers: two different selections can share a key.
   */
  lemma KeyMaterialJoinsWithoutSeparator()
    ensures KeyMaterial(["A", "B"], map["A" := "xy"]) == KeyMaterial(["A", "B"], map["A" := "x", "B" := "y"])
  {
    var two: seq<string> := ["A", "B"];
    assert two[..1] == ["A"] && two[..1][..0] == [];
  }

  // ------------------------------------------------------------ the key

  /** `getUserAgentCacheKey`: the lower-case hex form of the md5 digest of the key material. */
  function CacheKey(md5: string -> Md5Digest, important: seq<string>, h: map<string, string>): (key: string)
    ensures |key| == 32 && IsLowerHex(key)
  {
    HexEncode(md5(KeyMaterial(important, h)))
  }

  /** Extra headers never change the key. */
  lemma CacheKeyIgnoresExtras(md5: string -> Md5Digest, important: seq<string>, h: map<string, string>, extra: map<string, string>)
    requires forall n :: n in extra ==> n !in important
    ensures CacheKey(md5, important, h + extra) == CacheKey(md5, important, h)
  {
    KeyMaterialIgnoresExtras(important, h, extra);
  }

  /** Two keys are equal exactly when the digests of their material are. */
  lemma CacheKeySameDigest(md5: string -> Md5Digest, important: seq<string>, h1: map<string, string>, h2: map<string, string>)
    ensures CacheKey(md5, important, h1) == CacheKey(md5, important, h2)
        <==> md5(KeyMaterial(important, h1)) == md5(KeyMaterial(important, h2))
  {
    var d1, d2 := md5(KeyMaterial(important, h1)), md5(KeyMaterial(important, h2));
    if HexEncode(d1) == HexEncode(d2) {
      HexEncodeInjective(d1, d2);
    }
  }
}
