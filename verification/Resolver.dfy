/** Endpoint metadata lookup: an index split into exact paths and templates, against a scan of the whole table. */
module Resolver {
  import opened Common
  import opened Paths

  // ---- Keys ----------------------------------------------------------------------------------

  function EndpointKey(verb: string, path: string): string {
    verb + ":" + path
  }

  /** Method and path of a key, cut at the first colon; a key without one has neither. */
  function SplitKey(key: string): Option<(string, string)> {
    var n := FirstAt(key, ':');
    if n == |key| then None else Some((key[..n], key[n + 1..]))
  }

  lemma SplitKeyIs(key: string, verb: string, path: string)
    ensures SplitKey(key) == Some((verb, path)) <==> ColonFree(verb) && key == EndpointKey(verb, path)
  {
    var n := FirstAt(key, ':');
    if ColonFree(verb) && key == EndpointKey(verb, path) {
      assert key[|verb|] == ':' && forall i :: 0 <= i < |verb| ==> key[i] == verb[i];
      assert n == |verb|;
      assert key[..n] == verb && key[n + 1..] == path;
    }
    if n < |key| {
      assert key == key[..n] + ":" + key[n + 1..];
    }
  }

  /** Method and path under which the index files the key of `verb` and `path`. */
  function FiledAs(verb: string, path: string): (filed: (string, string))
    ensures SplitKey(EndpointKey(verb, path)) == Some(filed)
  {
    var key := EndpointKey(verb, path);
    assert key[|verb|] == ':';
    SplitKey(key).value
  }

  lemma FiledAsItself(verb: string, path: string)
    ensures ColonFree(FiledAs(verb, path).0)
    ensures FiledAs(verb, path) == (verb, path) <==> ColonFree(verb)
    ensures FiledAs(verb, path).0 == verb <==> ColonFree(verb)
  {
    var filed := FiledAs(verb, path);
    SplitKeyIs(EndpointKey(verb, path), verb, path);
    SplitKeyIs(EndpointKey(verb, path), filed.0, filed.1);
  }

  // ---- The index -----------------------------------------------------------------------------

  /** What is known about an endpoint; the versions are ordered by preference. */
  datatype Metadata = Metadata(operationId: string, resource: string, action: string, versions: seq<string>)

  datatype PatternEntry = PatternEntry(pattern: string, metadata: Metadata)

  datatype StaticResolver = StaticResolver(
    prefixes: seq<string>, exact: map<string, Metadata>, patternsByMethod: map<string, seq<PatternEntry>>)

  function PatternsOf(r: StaticResolver, verb: string): seq<PatternEntry> {
    if verb in r.patternsByMethod then r.patternsByMethod[verb] else []
  }

  /** The table names a template for the method. */
  predicate HasTemplate(table: map<string, Metadata>, verb: string, pattern: string) {
    ColonFree(verb) && IsTemplated(pattern) && EndpointKey(verb, pattern) in table
  }

  /** The table holds the key of method and path, and files it under a plain path. */
  predicate HasExact(table: map<string, Metadata>, verb: string, path: string) {
    EndpointKey(verb, path) in table && !IsTemplated(FiledAs(verb, path).1)
  }

  /** The exact part holds the key exactly when it is a plain entry among those taken in. */
  predicate ExactAt(r: StaticResolver, table: map<string, Metadata>, keys: set<string>, key: string) {
    && (key in r.exact <==>
          key in keys && key in table && SplitKey(key).Some? && !IsTemplated(SplitKey(key).value.1))
    && (key in r.exact ==> key in table && r.exact[key] == table[key])
  }

  /** The method's list holds the entry exactly when it is a template among those taken in, with its metadata. */
  predicate PatternAt(r: StaticResolver, table: map<string, Metadata>, keys: set<string>, verb: string, e: PatternEntry) {
    e in PatternsOf(r, verb) <==>
      && HasTemplate(table, verb, e.pattern) && EndpointKey(verb, e.pattern) in keys
      && e.metadata == table[EndpointKey(verb, e.pattern)]
  }

  /** The index holds the entries of the table with the given keys, each in its part, and nothing else. */
  ghost predicate Indexes(r: StaticResolver, table: map<string, Metadata>, keys: set<string>) {
    && (forall key :: ExactAt(r, table, keys, key))
    && (forall verb, e :: PatternAt(r, table, keys, verb, e))
  }

  function AddTemplate(r: StaticResolver, verb: string, e: PatternEntry): StaticResolver {
    r.(patternsByMethod := r.patternsByMethod[verb := PatternsOf(r, verb) + [e]])
  }

  lemma AddTemplateAt(r: StaticResolver, verb: string, e: PatternEntry, other: string, f: PatternEntry)
    ensures f in PatternsOf(AddTemplate(r, verb, e), other) <==>
      f in PatternsOf(r, other) || (other == verb && f == e)
  {
  }

  /** Taking in one more key adds nothing for keys other than it. */
  lemma OtherKeysStay(table: map<string, Metadata>, keys: set<string>, key: string, verb: string, pattern: string)
    requires SplitKey(key) != Some((verb, pattern))
    ensures HasTemplate(table, verb, pattern) && EndpointKey(verb, pattern) in keys + {key}
      <==> HasTemplate(table, verb, pattern) && EndpointKey(verb, pattern) in keys
  {
    SplitKeyIs(EndpointKey(verb, pattern), verb, pattern);
  }

  lemma IndexTemplate(r: StaticResolver, table: map<string, Metadata>, keys: set<string>, key: string, m: string, p: string)
    requires Indexes(r, table, keys) && key in table && SplitKey(key) == Some((m, p)) && IsTemplated(p)
    ensures Indexes(AddTemplate(r, m, PatternEntry(p, table[key])), table, keys + {key})
  {
    SplitKeyIs(key, m, p);
    var e := PatternEntry(p, table[key]);
    var r' := AddTemplate(r, m, e);
    forall k
      ensures ExactAt(r', table, keys + {key}, k)
    {
      assert ExactAt(r, table, keys, k);
    }
    forall verb, f
      ensures PatternAt(r', table, keys + {key}, verb, f)
    {
      assert PatternAt(r, table, keys, verb, f);
      AddTemplateAt(r, m, e, verb, f);
      if (verb, f.pattern) != (m, p) {
        OtherKeysStay(table, keys, key, verb, f.pattern);
      }
    }
  }

  lemma IndexExact(r: StaticResolver, table: map<string, Metadata>, keys: set<string>, key: string)
    requires Indexes(r, table, keys) && key in table
    requires SplitKey(key).Some? && !IsTemplated(SplitKey(key).value.1)
    ensures Indexes(r.(exact := r.exact[key := table[key]]), table, keys + {key})
  {
    var r' := r.(exact := r.exact[key := table[key]]);
    forall k
      ensures ExactAt(r', table, keys + {key}, k)
    {
      assert ExactAt(r, table, keys, k);
    }
    forall verb, f
      ensures PatternAt(r', table, keys + {key}, verb, f)
    {
      assert PatternAt(r, table, keys, verb, f);
      if SplitKey(key) != Some((verb, f.pattern)) {
        OtherKeysStay(table, keys, key, verb, f.pattern);
      }
    }
  }

  lemma IndexSkip(r: StaticResolver, table: map<string, Metadata>, keys: set<string>, key: string)
    requires Indexes(r, table, keys) && SplitKey(key).None?
    ensures Indexes(r, table, keys + {key})
  {
    forall k
      ensures ExactAt(r, table, keys + {key}, k)
    {
      assert ExactAt(r, table, keys, k);
    }
    forall verb, f
      ensures PatternAt(r, table, keys + {key}, verb, f)
    {
      assert PatternAt(r, table, keys, verb, f);
      OtherKeysStay(table, keys, key, verb, f.pattern);
    }
  }

  lemma NothingIndexed(prefixes: seq<string>, table: map<string, Metadata>)
    ensures Indexes(StaticResolver(prefixes, map[], map[]), table, {})
  {
  }

  /** Builds the index, visiting the table in no particular order. */
  method NewStaticResolver(prefixes: seq<string>, table: map<string, Metadata>) returns (r: StaticResolver)
    ensures r.prefixes == prefixes && Indexes(r, table, table.Keys)
  {
    r := StaticResolver(prefixes, map[], map[]);
    var todo := table.Keys;
    ghost var done: set<string> := {};
    NothingIndexed(prefixes, table);
    while todo != {}
      invariant done + todo == table.Keys
      invariant r.prefixes == prefixes && Indexes(r, table, done)
      decreases |todo|
    {
      var key :| key in todo;
      var parts := SplitKey(key);
      if parts == None {
        IndexSkip(r, table, done, key);
      } else {
        var (verb, pattern) := parts.value;
        if IsTemplated(pattern) {
          IndexTemplate(r, table, done, key, verb, pattern);
          r := AddTemplate(r, verb, PatternEntry(pattern, table[key]));
        } else {
          IndexExact(r, table, done, key);
          r := r.(exact := r.exact[key := table[key]]);
        }
      }
      todo := todo - {key};
      done := done + {key};
    }
    assert done == table.Keys;
  }

  // ---- Candidates ----------------------------------------------------------------------------

  /** What stripping one server prefix makes of a normalized path, if it applies. */
  function Stripped(base: string, prefix: string): Option<string> {
    if prefix == "/" then None
    else if base == prefix then Some("/")
    else if prefix + "/" <= base then Some(NormalizePath(base[|prefix|..]))
    else None
  }

  /** The path itself, then each new result of stripping a prefix, in the order of the prefixes. */
  function CandidatesFrom(prefixes: seq<string>, base: string): (cs: seq<string>)
    ensures cs != [] && cs[0] == base
  {
    if prefixes == [] then [base]
    else
      var n := |prefixes| - 1;
      var cs := CandidatesFrom(prefixes[..n], base);
      var c := Stripped(base, prefixes[n]);
      if c.Some? && c.value !in cs then cs + [c.value] else cs
  }

  function Candidates(prefixes: seq<string>, path: string): seq<string> {
    CandidatesFrom(prefixes, NormalizePath(path))
  }

  /** Behind the prefix, a slash and the rest are left; behind nothing but the prefix, the root. */
  ghost predicate StripsTo(base: string, prefix: string, c: string) {
    prefix != "/" &&
    ((base == prefix && c == "/") || exists rest :: base == prefix + "/" + rest && c == NormalizePath("/" + rest))
  }

  lemma StrippedIs(base: string, prefix: string, c: string)
    ensures Stripped(base, prefix) == Some(c) <==> StripsTo(base, prefix, c)
  {
    if prefix + "/" <= base {
      var rest := base[|prefix| + 1..];
      assert base == prefix + "/" + rest && base[|prefix|..] == "/" + rest;
    }
    forall rest | base == prefix + "/" + rest
      ensures prefix + "/" <= base && base[|prefix|..] == "/" + rest
    {
    }
  }

  lemma {:induction false} CandidatesAreStripped(prefixes: seq<string>, base: string)
    ensures forall c :: c in CandidatesFrom(prefixes, base) <==>
      c == base || exists i :: 0 <= i < |prefixes| && Stripped(base, prefixes[i]) == Some(c)
    ensures forall i, j :: 0 <= i < j < |CandidatesFrom(prefixes, base)| ==>
      CandidatesFrom(prefixes, base)[i] != CandidatesFrom(prefixes, base)[j]
  {
    if prefixes != [] {
      var n := |prefixes| - 1;
      CandidatesAreStripped(prefixes[..n], base);
      assert prefixes == prefixes[..n] + [prefixes[n]];
    }
  }

  /** The candidates are the normalized path, which comes first, and what is left of it behind each prefix; none twice. */
  lemma CandidatesAre(prefixes: seq<string>, path: string)
    ensures Candidates(prefixes, path) != [] && Candidates(prefixes, path)[0] == NormalizePath(path)
    ensures forall c :: c in Candidates(prefixes, path) <==>
      c == NormalizePath(path) || exists i :: 0 <= i < |prefixes| && StripsTo(NormalizePath(path), prefixes[i], c)
    ensures forall i, j :: 0 <= i < j < |Candidates(prefixes, path)| ==>
      Candidates(prefixes, path)[i] != Candidates(prefixes, path)[j]
  {
    var base := NormalizePath(path);
    CandidatesAreStripped(prefixes, base);
    forall i, c | 0 <= i < |prefixes|
      ensures Stripped(base, prefixes[i]) == Some(c) <==> StripsTo(base, prefixes[i], c)
    {
      StrippedIs(base, prefixes[i], c);
    }
  }

  method NormalizeCandidates(prefixes: seq<string>, path: string) returns (candidates: seq<string>)
    ensures candidates == Candidates(prefixes, path)
  {
    var base := NormalizePath(path);
    candidates := [base];
    var seen := {base};
    for i := 0 to |prefixes|
      invariant candidates == CandidatesFrom(prefixes[..i], base)
      invariant forall c :: c in seen <==> c in candidates
    {
      var prefix := prefixes[i];
      assert prefixes[..i + 1][..i] == prefixes[..i];
      if prefix == "/" {
        continue;
      }
      if base == prefix {
        if "/" !in seen {
          seen := seen + {"/"};
          candidates := candidates + ["/"];
        }
        continue;
      }
      if prefix + "/" <= base {
        var stripped := NormalizePath(base[|prefix|..]);
        if stripped !in seen {
          seen := seen + {stripped};
          candidates := candidates + [stripped];
        }
      }
    }
    assert prefixes[..|prefixes|] == prefixes;
  }

  // ---- The scan ------------------------------------------------------------------------------

  /** The first candidate with a plain entry decides. */
  function ExactHit(table: map<string, Metadata>, verb: string, cs: seq<string>): Option<Metadata> {
    if cs == [] then None
    else if HasExact(table, verb, cs[0]) then Some(table[EndpointKey(verb, cs[0])])
    else ExactHit(table, verb, cs[1..])
  }

  predicate MatchesSome(pattern: string, cs: seq<string>) {
    exists c :: c in cs && Matches(pattern, c)
  }

  /** The template of the method matches some candidate. */
  predicate TemplateHit(table: map<string, Metadata>, verb: string, cs: seq<string>, pattern: string) {
    HasTemplate(table, verb, pattern) && MatchesSome(pattern, cs)
  }

  ghost predicate AnyTemplateHit(table: map<string, Metadata>, verb: string, cs: seq<string>) {
    exists pattern :: TemplateHit(table, verb, cs, pattern)
  }

  /** The result is the metadata of a template that matches. */
  ghost predicate FromTemplate(table: map<string, Metadata>, verb: string, cs: seq<string>, found: Option<Metadata>) {
    exists pattern :: TemplateHit(table, verb, cs, pattern) && found == Some(table[EndpointKey(verb, pattern)])
  }

  /** The result of the first non-empty of two tiers, or of neither. */
  ghost predicate FromTiers(table: map<string, Metadata>, verb: string, cs: seq<string>, found: Option<Metadata>) {
    if ExactHit(table, verb, cs).Some? then found == ExactHit(table, verb, cs)
    else if AnyTemplateHit(table, verb, cs) then FromTemplate(table, verb, cs, found)
    else found == None
  }

  ghost predicate AnyHit(table: map<string, Metadata>, verb: string, cs: seq<string>) {
    ExactHit(table, verb, cs).Some? || AnyTemplateHit(table, verb, cs)
  }

  /** The scan: route path first if there is one, exact before template, then the request path. */
  ghost predicate Resolves(
    table: map<string, Metadata>, prefixes: seq<string>, verb: string, path: string, routePath: string, found: Option<Metadata>)
  {
    var route := Candidates(prefixes, routePath);
    if routePath != "" && AnyHit(table, verb, route) then FromTiers(table, verb, route, found)
    else FromTiers(table, verb, Candidates(prefixes, path), found)
  }

  method FindExact(r: StaticResolver, verb: string, cs: seq<string>, ghost table: map<string, Metadata>) returns (found: Option<Metadata>)
    requires Indexes(r, table, table.Keys)
    ensures found == ExactHit(table, verb, cs)
  {
    for i := 0 to |cs|
      invariant ExactHit(table, verb, cs) == ExactHit(table, verb, cs[i..])
    {
      var key := EndpointKey(verb, cs[i]);
      FiledAsItself(verb, cs[i]);
      assert ExactAt(r, table, table.Keys, key);
      assert cs[i..][1..] == cs[i + 1..];
      if key in r.exact {
        return Some(r.exact[key]);
      }
    }
    found := None;
  }

  method FindTemplate(r: StaticResolver, verb: string, cs: seq<string>, ghost table: map<string, Metadata>)
    returns (found: Option<Metadata>)
    requires Indexes(r, table, table.Keys)
    ensures if AnyTemplateHit(table, verb, cs) then FromTemplate(table, verb, cs, found) else found == None
  {
    var entries := PatternsOf(r, verb);
    for i := 0 to |entries|
      invariant forall j :: 0 <= j < i ==> !MatchesSome(entries[j].pattern, cs)
    {
      var entry := entries[i];
      for j := 0 to |cs|
        invariant forall k :: 0 <= k < j ==> !Matches(entry.pattern, cs[k])
      {
        var matches := MatchTemplatePath(entry.pattern, cs[j]);
        if matches {
          assert PatternAt(r, table, table.Keys, verb, entry);
          assert entry in entries && cs[j] in cs;
          assert MatchesSome(entry.pattern, cs);
          assert TemplateHit(table, verb, cs, entry.pattern);
          return Some(entry.metadata);
        }
      }
    }
    NoTemplateLeft(r, verb, cs, table);
    found := None;
  }

  lemma NoTemplateLeft(r: StaticResolver, verb: string, cs: seq<string>, table: map<string, Metadata>)
    requires Indexes(r, table, table.Keys)
    requires forall j :: 0 <= j < |PatternsOf(r, verb)| ==> !MatchesSome(PatternsOf(r, verb)[j].pattern, cs)
    ensures !AnyTemplateHit(table, verb, cs)
  {
    forall pattern
      ensures !TemplateHit(table, verb, cs, pattern)
    {
      if HasTemplate(table, verb, pattern) {
        var e := PatternEntry(pattern, table[EndpointKey(verb, pattern)]);
        assert PatternAt(r, table, table.Keys, verb, e);
        assert e in PatternsOf(r, verb);
      }
    }
  }

  /** Looks a request up. */
  method Match(r: StaticResolver, verb: string, path: string, routePath: string, ghost table: map<string, Metadata>)
    returns (found: Option<Metadata>)
    requires Indexes(r, table, table.Keys)
    ensures Resolves(table, r.prefixes, verb, path, routePath, found)
  {
    if routePath != "" {
      var routeCandidates := NormalizeCandidates(r.prefixes, routePath);
      found := FindExact(r, verb, routeCandidates, table);
      if found.Some? {
        return;
      }
      found := FindTemplate(r, verb, routeCandidates, table);
      if found.Some? {
        return;
      }
    }
    var pathCandidates := NormalizeCandidates(r.prefixes, path);
    found := FindExact(r, verb, pathCandidates, table);
    if found.Some? {
      return;
    }
    found := FindTemplate(r, verb, pathCandidates, table);
  }

  // ---- What the scan means -------------------------------------------------------------------

  /** One entry of the table against one path: templates by matching, plain paths by equality. A template serves the
      method it is filed under. */
  predicate EntryMatches(table: map<string, Metadata>, verb: string, pattern: string, path: string) {
    && EndpointKey(verb, pattern) in table
    && if IsTemplated(FiledAs(verb, pattern).1) then ColonFree(verb) && Matches(pattern, path) else pattern == path
  }

  ghost predicate SomeEntryMatches(table: map<string, Metadata>, verb: string, cs: seq<string>) {
    exists pattern, c :: c in cs && EntryMatches(table, verb, pattern, c)
  }

  lemma {:induction false} ExactHitIff(table: map<string, Metadata>, verb: string, cs: seq<string>)
    ensures ExactHit(table, verb, cs).Some? <==> exists c :: c in cs && HasExact(table, verb, c)
  {
    if cs != [] {
      ExactHitIff(table, verb, cs[1..]);
      assert forall c :: c in cs <==> c == cs[0] || c in cs[1..];
    }
  }

  lemma AnyHitIff(table: map<string, Metadata>, verb: string, cs: seq<string>)
    ensures AnyHit(table, verb, cs) <==> SomeEntryMatches(table, verb, cs)
  {
    ExactHitIff(table, verb, cs);
    if SomeEntryMatches(table, verb, cs) {
      var pattern, c :| c in cs && EntryMatches(table, verb, pattern, c);
      FiledAsItself(verb, pattern);
      if IsTemplated(FiledAs(verb, pattern).1) {
        assert TemplateHit(table, verb, cs, pattern);
      } else {
        assert HasExact(table, verb, c);
      }
    }
    if ExactHit(table, verb, cs).Some? {
      var c :| c in cs && HasExact(table, verb, c);
      assert EntryMatches(table, verb, c, c);
    }
    if AnyTemplateHit(table, verb, cs) {
      var pattern :| TemplateHit(table, verb, cs, pattern);
      var c :| c in cs && Matches(pattern, c);
      FiledAsItself(verb, pattern);
      assert EntryMatches(table, verb, pattern, c);
    }
  }

  /** A lookup finds something exactly when some entry of the table matches some candidate of the route path or
      of the request path. */
  lemma FoundIffSomeEntryMatches(
    table: map<string, Metadata>, prefixes: seq<string>, verb: string, path: string, routePath: string, found: Option<Metadata>)
    requires Resolves(table, prefixes, verb, path, routePath, found)
    ensures found.Some? <==>
      || (routePath != "" && SomeEntryMatches(table, verb, Candidates(prefixes, routePath)))
      || SomeEntryMatches(table, verb, Candidates(prefixes, path))
  {
    AnyHitIff(table, verb, Candidates(prefixes, routePath));
    AnyHitIff(table, verb, Candidates(prefixes, path));
  }

  // ---- Which entry answers -------------------------------------------------------------------

  /** The table has a plain entry for the method and path. */
  predicate PlainEntry(table: map<string, Metadata>, verb: string, path: string) {
    EndpointKey(verb, path) in table && !('{' in path && '}' in path)
  }

  lemma PlainEntryIsExact(table: map<string, Metadata>, verb: string, path: string)
    requires ColonFree(verb)
    ensures HasExact(table, verb, path) <==> PlainEntry(table, verb, path)
  {
    FiledAsItself(verb, path);
  }

  lemma {:induction false} OnlyExactHit(table: map<string, Metadata>, verb: string, cs: seq<string>, c: string)
    requires ColonFree(verb) && c in cs && PlainEntry(table, verb, c)
    requires forall d :: d in cs && d != c ==> EndpointKey(verb, d) !in table
    ensures ExactHit(table, verb, cs) == Some(table[EndpointKey(verb, c)])
  {
    PlainEntryIsExact(table, verb, c);
    if cs[0] != c {
      assert cs[0] in cs && forall d :: d in cs[1..] ==> d in cs;
      OnlyExactHit(table, verb, cs[1..], c);
    }
  }

  /** A plain entry for the very path asked for answers before anything else: for the route path if there is one, for
      the request path if there is none. */
  lemma FullPathAnswersFirst(
    table: map<string, Metadata>, prefixes: seq<string>, verb: string, path: string, routePath: string, found: Option<Metadata>)
    requires Resolves(table, prefixes, verb, path, routePath, found) && ColonFree(verb)
    requires PlainEntry(table, verb, NormalizePath(if routePath != "" then routePath else path))
    ensures found == Some(table[EndpointKey(verb, NormalizePath(if routePath != "" then routePath else path))])
  {
    var p := if routePath != "" then routePath else path;
    PlainEntryIsExact(table, verb, NormalizePath(p));
    var cs := Candidates(prefixes, p);
    CandidatesAre(prefixes, p);
    assert ExactHit(table, verb, cs) == Some(table[EndpointKey(verb, cs[0])]);
  }

  /** A request for a path behind a server prefix is answered by the plain entry without the prefix, when no other
      candidate has an entry. */
  lemma PrefixedRequestIsAnswered(
    table: map<string, Metadata>, prefixes: seq<string>, verb: string, prefix: string, rest: string, found: Option<Metadata>)
    requires prefix in prefixes && prefix != "" && prefix[0] == '/' && prefix != "/" && ColonFree(verb)
    requires rest != "" && rest[|rest| - 1] != '/' && PlainEntry(table, verb, "/" + rest)
    requires forall c :: c in Candidates(prefixes, prefix + "/" + rest) && c != "/" + rest ==> EndpointKey(verb, c) !in table
    requires Resolves(table, prefixes, verb, prefix + "/" + rest, "", found)
    ensures found == Some(table[EndpointKey(verb, "/" + rest)])
  {
    var path := prefix + "/" + rest;
    StrippedIsCandidate(prefixes, prefix, rest);
    OnlyExactHit(table, verb, Candidates(prefixes, path), "/" + rest);
  }

  lemma StrippedIsCandidate(prefixes: seq<string>, prefix: string, rest: string)
    requires prefix in prefixes && prefix != "" && prefix[0] == '/' && prefix != "/" && rest != "" && rest[|rest| - 1] != '/'
    ensures "/" + rest in Candidates(prefixes, prefix + "/" + rest)
  {
    var path := prefix + "/" + rest;
    NormalizePathIs(path);
    NormalizePathIs("/" + rest);
    CandidatesAre(prefixes, path);
    var i :| 0 <= i < |prefixes| && prefixes[i] == prefix;
    assert StripsTo(path, prefixes[i], "/" + rest);
  }

  /** A request that fills in a template of its method is answered. */
  lemma TemplateAnswers(
    table: map<string, Metadata>, prefixes: seq<string>, verb: string, pattern: string, fill: seq<string>, path: string, found: Option<Metadata>)
    requires ColonFree(verb) && EndpointKey(verb, pattern) in table && '{' in pattern && '}' in pattern
    requires |fill| == |Segments(pattern)| && (forall i :: 0 <= i < |fill| ==> IsSegment(fill[i]))
    requires Segments(path) == Instantiate(Segments(pattern), fill)
    requires Resolves(table, prefixes, verb, path, "", found)
    ensures found.Some?
  {
    var cs := Candidates(prefixes, path);
    CandidatesAre(prefixes, path);
    MatchesIffInstance(pattern, path);
    MatchingIgnoresNormalization(pattern, path);
    FiledAsItself(verb, pattern);
    assert cs[0] in cs && EntryMatches(table, verb, pattern, cs[0]);
    FoundIffSomeEntryMatches(table, prefixes, verb, path, "", found);
  }

  /** If anything matches a candidate of the route path, the answer is an entry that does, whatever the request path. */
  lemma RouteDecides(
    table: map<string, Metadata>, prefixes: seq<string>, verb: string, path: string, routePath: string, found: Option<Metadata>)
    requires Resolves(table, prefixes, verb, path, routePath, found)
    requires routePath != "" && SomeEntryMatches(table, verb, Candidates(prefixes, routePath))
    ensures exists pattern, c :: c in Candidates(prefixes, routePath) && EntryMatches(table, verb, pattern, c)
                                 && found == Some(table[EndpointKey(verb, pattern)])
  {
    var cs := Candidates(prefixes, routePath);
    AnyHitIff(table, verb, cs);
    if ExactHit(table, verb, cs).Some? {
      var c := ExactHitFrom(table, verb, cs);
      assert EntryMatches(table, verb, c, c);
    } else {
      var pattern :| TemplateHit(table, verb, cs, pattern) && found == Some(table[EndpointKey(verb, pattern)]);
      var c :| c in cs && Matches(pattern, c);
      FiledAsItself(verb, pattern);
      assert EntryMatches(table, verb, pattern, c);
    }
  }

  /** The candidates that decide: those of the route path if any entry matches one of them. */
  ghost function Deciding(table: map<string, Metadata>, prefixes: seq<string>, verb: string, path: string, routePath: string): seq<string> {
    var route := Candidates(prefixes, routePath);
    if routePath != "" && AnyHit(table, verb, route) then route else Candidates(prefixes, path)
  }

  /** All templates of the method that match a candidate carry the same metadata. */
  ghost predicate TemplatesAgree(table: map<string, Metadata>, verb: string, cs: seq<string>) {
    forall p, q :: TemplateHit(table, verb, cs, p) && TemplateHit(table, verb, cs, q) ==>
      table[EndpointKey(verb, p)] == table[EndpointKey(verb, q)]
  }

  /** The answer does not depend on the order in which the index was built exactly when a plain path decides it or
      all templates that could decide it agree. */
  lemma AnswerIsUniqueIff(table: map<string, Metadata>, prefixes: seq<string>, verb: string, path: string, routePath: string)
    ensures (forall a, b :: Resolves(table, prefixes, verb, path, routePath, a) && Resolves(table, prefixes, verb, path, routePath, b) ==> a == b)
      <==> var cs := Deciding(table, prefixes, verb, path, routePath);
           ExactHit(table, verb, cs).Some? || TemplatesAgree(table, verb, cs)
  {
    var cs := Deciding(table, prefixes, verb, path, routePath);
    if ExactHit(table, verb, cs).None? {
      forall p, q | TemplateHit(table, verb, cs, p) && TemplateHit(table, verb, cs, q)
        ensures Resolves(table, prefixes, verb, path, routePath, Some(table[EndpointKey(verb, p)]))
        ensures Resolves(table, prefixes, verb, path, routePath, Some(table[EndpointKey(verb, q)]))
      {
      }
    }
  }

  /** The metadata is that of an entry filed under the method. */
  ghost predicate FromOwnMethod(table: map<string, Metadata>, verb: string, found: Option<Metadata>) {
    exists key :: key in table && SplitKey(key).Some? && SplitKey(key).value.0 == verb && found == Some(table[key])
  }

  lemma {:induction false} ExactHitFrom(table: map<string, Metadata>, verb: string, cs: seq<string>) returns (c: string)
    requires ExactHit(table, verb, cs).Some?
    ensures c in cs && HasExact(table, verb, c) && ExactHit(table, verb, cs) == Some(table[EndpointKey(verb, c)])
  {
    if HasExact(table, verb, cs[0]) {
      c := cs[0];
    } else {
      c := ExactHitFrom(table, verb, cs[1..]);
    }
  }

  lemma TiersAnswerFrom(table: map<string, Metadata>, verb: string, cs: seq<string>, found: Option<Metadata>)
    requires ColonFree(verb) && FromTiers(table, verb, cs, found) && found.Some?
    ensures FromOwnMethod(table, verb, found)
  {
    var path: string;
    if ExactHit(table, verb, cs).Some? {
      path := ExactHitFrom(table, verb, cs);
    } else {
      path :| TemplateHit(table, verb, cs, path) && found == Some(table[EndpointKey(verb, path)]);
    }
    SplitKeyIs(EndpointKey(verb, path), verb, path);
  }

  /** Whatever is found belongs to the request's method exactly when the method holds no colon. */
  lemma AnswerIsOwnMethodsIff(
    table: map<string, Metadata>, prefixes: seq<string>, verb: string, path: string, routePath: string, found: Option<Metadata>)
    requires Resolves(table, prefixes, verb, path, routePath, found) && found.Some?
    ensures FromOwnMethod(table, verb, found) <==> ColonFree(verb)
  {
    if ColonFree(verb) {
      var route := Candidates(prefixes, routePath);
      TiersAnswerFrom(table, verb, if routePath != "" && AnyHit(table, verb, route) then route else Candidates(prefixes, path), found);
    }
  }

  lemma CutLiteral()
    ensures SplitKey("GET:v1:/x") == Some(("GET", "v1:/x")) && "GET:v1:/x" == EndpointKey("GET:v1", "/x")
  {
    assert "GET:v1" + ":" + "/x" == "GET:v1:/x" == "GET" + ":" + "v1:/x";
    SplitKeyIs("GET:v1:/x", "GET", "v1:/x");
  }

  /** A method with a colon can find something: the entry of another method. */
  lemma ColonsConfuseMethods(meta: Metadata)
    ensures Resolves(map["GET:v1:/x" := meta], [], "GET:v1", "/x", "", Some(meta))
    ensures FiledAs("GET:v1", "/x") == ("GET", "v1:/x")
  {
    CutLiteral();
    assert Candidates([], "/x") == ["/x"];
    assert HasExact(map["GET:v1:/x" := meta], "GET:v1", "/x");
  }
}
