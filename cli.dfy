/** The domain-pattern routing table of src/cli.rs: pattern strings classified by prefix,
    one matcher per (set name, pattern) pair built fail-fast, and lookups that collect the
    names of the sets whose pattern accepts a domain.

    Glob and regex semantics belong to the glob and regex crates; they enter the model as the
    relations of an `Engines` value, about which nothing is assumed. */
module Cli {
  import opened Bytes
  import opened Errors
  import opened IpsetTypes

  /** "g:" and "r:" as bytes. */
  const GlobPrefix: Str := [0x67, 0x3A]
  const RegexPrefix: Str := [0x72, 0x3A]

  /** `String` (or `&str`), `glob::Pattern` and `regex::Regex` as used by `DomainPattern`;
      a glob or regex is kept as the source text it was compiled from. */
  datatype Pattern = Exact(value: Str) | Glob(glob: Str) | Regex(regex: Str)

  /** The foreign pattern crates: which sources compile, and which values a compiled
      pattern accepts. */
  datatype Engines = Engines(
    globCompiles: Str -> bool,
    globMatches: (Str, Str) -> bool,
    regexCompiles: Str -> bool,
    regexIsMatch: (Str, Str) -> bool)

  /** `DomainPattern::matches` for the three implementations. */
  function PatternMatches(p: Pattern, value: Str, eng: Engines): (b: bool)
    ensures p.Exact? ==> (b <==> value == PatternSource(p))
  {
    match p
    case Exact(s) => s == value
    case Glob(g) => eng.globMatches(g, value)
    case Regex(r) => eng.regexIsMatch(r, value)
  }

  /** The pattern string a configuration would hold for `p`. */
  function PatternSource(p: Pattern): Str {
    match p
    case Exact(s) => s
    case Glob(g) => GlobPrefix + g
    case Regex(r) => RegexPrefix + r
  }

  /** The branch `create_setname_matcher` takes on a pattern string: `g:` gives a glob of
      the rest, `r:` a regex of the rest, anything else an exact string. */
  function ClassifyPattern(src: Str): (p: Pattern)
    ensures PatternSource(p) == src
    ensures p.Glob? <==> StartsWith(src, GlobPrefix)
    ensures p.Regex? <==> StartsWith(src, RegexPrefix)
    ensures p.Exact? ==> p.value == src
  {
    if StartsWith(src, GlobPrefix) then Glob(src[2..])
    else if StartsWith(src, RegexPrefix) then Regex(src[2..])
    else Exact(src)
  }

  /** Reading back the source of a pattern gives the pattern, except for an exact string that
      itself starts with one of the two prefixes (it would be read as a glob or regex). */
  lemma ClassifyPatternSource(p: Pattern)
    ensures ClassifyPattern(PatternSource(p)) == p
            <==> !(p.Exact? && (StartsWith(p.value, GlobPrefix) || StartsWith(p.value, RegexPrefix)))
  {
    match p
    case Exact(s) =>
    case Glob(g) =>
      assert (GlobPrefix + g)[..2] == GlobPrefix && (GlobPrefix + g)[2..] == g;
    case Regex(r) =>
      assert (RegexPrefix + r)[..2] == RegexPrefix && (RegexPrefix + r)[2..] == r;
  }

  /** Whether the pattern crate accepts the source of `p`; an exact string always does. */
  predicate Compiles(p: Pattern, eng: Engines) {
    match p
    case Exact(_) => true
    case Glob(g) => eng.globCompiles(g)
    case Regex(r) => eng.regexCompiles(r)
  }

  /** `SetnameMatcher`: a set name and the pattern that routes domains to it. */
  datatype SetnameMatcher = SetnameMatcher(setname: Str, domainMatcher: Pattern) {
    /** The set name plays no part: a matcher accepts what its pattern accepts. */
    function Matches(value: Str, eng: Engines): (b: bool)
      ensures domainMatcher.Exact? ==> (b <==> value == PatternSource(domainMatcher))
    {
      PatternMatches(domainMatcher, value, eng)
    }
  }

  /** `create_setname_matcher`. The name guard comes first, so a name of 31 bytes or more
      fails whatever the pattern string. */
  function CreateSetnameMatcher(setname: Str, src: Str, eng: Engines): (r: Result<SetnameMatcher>)
    ensures |setname| + 1 >= IPSET_MAXNAMELEN ==> r == Err(SetnameTooLong(setname))
    ensures r.Ok? <==> |setname| + 1 < IPSET_MAXNAMELEN && Compiles(ClassifyPattern(src), eng)
    ensures r.Ok? ==> r.value == SetnameMatcher(setname, ClassifyPattern(src))
    ensures r.Err? && |setname| + 1 < IPSET_MAXNAMELEN ==>
              || (ClassifyPattern(src).Glob? && r.error == InvalidGlob(ClassifyPattern(src).glob))
              || (ClassifyPattern(src).Regex? && r.error == InvalidRegex(ClassifyPattern(src).regex))
  {
    if |setname| + 1 >= IPSET_MAXNAMELEN then Err(SetnameTooLong(setname))
    else if StartsWith(src, GlobPrefix) then
      var pattern := src[2..];
      if eng.globCompiles(pattern) then Ok(SetnameMatcher(setname, Glob(pattern)))
      else Err(InvalidGlob(pattern))
    else if StartsWith(src, RegexPrefix) then
      var pattern := src[2..];
      if eng.regexCompiles(pattern) then Ok(SetnameMatcher(setname, Regex(pattern)))
      else Err(InvalidRegex(pattern))
    else Ok(SetnameMatcher(setname, Exact(src)))
  }

  /** An exact matcher accepts a value exactly when it is byte-for-byte the configured string. */
  lemma ExactMatchesIsEquality(setname: Str, src: Str, value: Str, eng: Engines)
    requires !StartsWith(src, GlobPrefix) && !StartsWith(src, RegexPrefix)
    requires |setname| + 1 < IPSET_MAXNAMELEN
    ensures CreateSetnameMatcher(setname, src, eng).Ok?
    ensures CreateSetnameMatcher(setname, src, eng).value.Matches(value, eng) <==> value == src
  {
  }

  //
  // Building the matcher list
  //

  /** One `(key, value)` of the configuration's `BTreeMap<String, Vec<String>>`. */
  datatype Entry = Entry(setname: Str, patterns: seq<Str>)

  /** A `BTreeMap` iterates its entries in ascending key order; keys are distinct. */
  predicate IsBTreeMap(entries: seq<Entry>) {
    forall i, j :: 0 <= i < j < |entries| ==> ByteLess(entries[i].setname, entries[j].setname)
  }

  /** The order is strict, so no set name is a key of two entries. */
  lemma BTreeMapKeysDistinct(entries: seq<Entry>)
    requires IsBTreeMap(entries)
    ensures forall i, j :: 0 <= i < |entries| && 0 <= j < |entries| && i != j ==>
              entries[i].setname != entries[j].setname
  {
    forall i, j | 0 <= i < |entries| && 0 <= j < |entries| && i != j
      ensures entries[i].setname != entries[j].setname
    {
      ByteLessIrreflexive(entries[i].setname);
    }
  }

  /** One `(setname, pattern string)` pair visited by the nested loops. */
  datatype ConfigPair = ConfigPair(setname: Str, source: Str)

  function EntryPairs(e: Entry): (ps: seq<ConfigPair>)
    ensures |ps| == |e.patterns|
    ensures forall k :: 0 <= k < |ps| ==> ps[k] == ConfigPair(e.setname, e.patterns[k])
  {
    seq(|e.patterns|, k requires 0 <= k < |e.patterns| => ConfigPair(e.setname, e.patterns[k]))
  }

  /** All pairs in iteration order: map-key order, then list order. */
  function Pairs(entries: seq<Entry>): seq<ConfigPair> {
    if |entries| == 0 then []
    else Pairs(entries[..|entries| - 1]) + EntryPairs(entries[|entries| - 1])
  }

  lemma {:induction false} PairsAppend(a: seq<Entry>, b: seq<Entry>)
    ensures Pairs(a + b) == Pairs(a) + Pairs(b)
    decreases |b|
  {
    if |b| == 0 {
      assert a + b == a;
    } else {
      var b' := b[..|b| - 1];
      assert (a + b)[..|a + b| - 1] == a + b';
      assert (a + b)[|a + b| - 1] == b[|b| - 1];
      PairsAppend(a, b');
      assert Pairs(a + b) == Pairs(a + b') + EntryPairs(b[|b| - 1]);
    }
  }

  /** A pair is visited exactly when its set name is a key whose list holds its pattern string. */
  lemma {:induction false} PairsMembership(entries: seq<Entry>, p: ConfigPair)
    ensures p in Pairs(entries)
            <==> exists k :: 0 <= k < |entries| && entries[k].setname == p.setname && p.source in entries[k].patterns
    decreases |entries|
  {
    if |entries| > 0 {
      var init := entries[..|entries| - 1];
      var last := entries[|entries| - 1];
      PairsMembership(init, p);
      if p in EntryPairs(last) {
        var k :| 0 <= k < |EntryPairs(last)| && EntryPairs(last)[k] == p;
        assert last.patterns[k] == p.source;
      }
      if p.setname == last.setname && p.source in last.patterns {
        var k :| 0 <= k < |last.patterns| && last.patterns[k] == p.source;
        assert EntryPairs(last)[k] == p;
      }
      forall k | 0 <= k < |init| ensures init[k] == entries[k] { }
    }
  }

  /** Pairs come in key order: a later pair has the same or a greater set name. */
  lemma {:induction false} PairsInKeyOrder(entries: seq<Entry>)
    requires IsBTreeMap(entries)
    ensures forall i, j :: 0 <= i < j < |Pairs(entries)| ==>
              Pairs(entries)[i].setname == Pairs(entries)[j].setname
              || ByteLess(Pairs(entries)[i].setname, Pairs(entries)[j].setname)
    decreases |entries|
  {
    if |entries| > 0 {
      var init := entries[..|entries| - 1];
      var last := entries[|entries| - 1];
      PairsInKeyOrder(init);
      var ps := Pairs(entries);
      assert ps == Pairs(init) + EntryPairs(last);
      forall i, j | 0 <= i < j < |ps|
        ensures ps[i].setname == ps[j].setname || ByteLess(ps[i].setname, ps[j].setname)
      {
        if j >= |Pairs(init)| {
          assert ps[j].setname == last.setname;
          if i < |Pairs(init)| {
            assert ps[i] in Pairs(init);
            PairsMembership(init, ps[i]);
            var k :| 0 <= k < |init| && init[k].setname == ps[i].setname && ps[i].source in init[k].patterns;
            assert entries[k] == init[k];
          }
        }
      }
    }
  }

  /** The fail-fast build over a pair list: the first pair that fails decides the error. */
  function MatchersOf(pairs: seq<ConfigPair>, eng: Engines): (r: Result<seq<SetnameMatcher>>)
    ensures r.Ok? <==> forall k :: 0 <= k < |pairs| ==> CreateSetnameMatcher(pairs[k].setname, pairs[k].source, eng).Ok?
    ensures r.Ok? ==>
              && |r.value| == |pairs|
              && forall k :: 0 <= k < |pairs| ==> Ok(r.value[k]) == CreateSetnameMatcher(pairs[k].setname, pairs[k].source, eng)
    ensures r.Err? ==>
              exists k ::
                && 0 <= k < |pairs|
                && (forall j :: 0 <= j < k ==> CreateSetnameMatcher(pairs[j].setname, pairs[j].source, eng).Ok?)
                && CreateSetnameMatcher(pairs[k].setname, pairs[k].source, eng) == Err(r.error)
  {
    if |pairs| == 0 then Ok([])
    else
      match CreateSetnameMatcher(pairs[0].setname, pairs[0].source, eng)
      case Err(e) => Err(e)
      case Ok(m) =>
        match MatchersOf(pairs[1..], eng)
        case Err(e) =>
          assert forall k :: 1 <= k < |pairs| ==> pairs[k] == pairs[1..][k - 1];
          Err(e)
        case Ok(ms) =>
          assert forall k :: 1 <= k < |pairs| ==> pairs[k] == pairs[1..][k - 1];
          Ok([m] + ms)
  }

  /** When every pair before `n` succeeds and pair `n` fails, the build fails with its error. */
  lemma MatchersOfFirstFailure(pairs: seq<ConfigPair>, n: nat, eng: Engines)
    requires n < |pairs|
    requires forall k :: 0 <= k < n ==> CreateSetnameMatcher(pairs[k].setname, pairs[k].source, eng).Ok?
    requires CreateSetnameMatcher(pairs[n].setname, pairs[n].source, eng).Err?
    ensures MatchersOf(pairs, eng) == Err(CreateSetnameMatcher(pairs[n].setname, pairs[n].source, eng).error)
  {
    var r := MatchersOf(pairs, eng);
    var k :| 0 <= k < |pairs|
      && (forall j :: 0 <= j < k ==> CreateSetnameMatcher(pairs[j].setname, pairs[j].source, eng).Ok?)
      && CreateSetnameMatcher(pairs[k].setname, pairs[k].source, eng) == Err(r.error);
    assert k == n;
  }

  lemma IndexInMiddle<T>(pre: seq<T>, mid: seq<T>, post: seq<T>, j: nat)
    requires j < |mid|
    ensures (pre + mid + post)[|pre| + j] == mid[j]
  {
    assert (pre + mid + post)[|pre| + j] == (pre + mid)[|pre| + j];
  }

  lemma PairsPrefixStep(configSet: seq<Entry>, i: nat)
    requires i < |configSet|
    ensures Pairs(configSet[..i + 1]) == Pairs(configSet[..i]) + EntryPairs(configSet[i])
  {
    assert configSet[..i + 1][..i] == configSet[..i];
  }

  lemma PairsSplit(configSet: seq<Entry>, i: nat)
    requires i < |configSet|
    ensures Pairs(configSet) == Pairs(configSet[..i + 1]) + Pairs(configSet[i + 1..])
  {
    assert configSet == configSet[..i + 1] + configSet[i + 1..];
    PairsAppend(configSet[..i + 1], configSet[i + 1..]);
  }

  /** Where the pairs of entry `i` sit in the pair list of the whole map. */
  lemma PairsSplitAt(configSet: seq<Entry>, i: nat)
    requires i < |configSet|
    ensures Pairs(configSet[..i + 1]) == Pairs(configSet[..i]) + EntryPairs(configSet[i])
    ensures Pairs(configSet) == Pairs(configSet[..i]) + EntryPairs(configSet[i]) + Pairs(configSet[i + 1..])
  {
    PairsPrefixStep(configSet, i);
    PairsSplit(configSet, i);
  }

  /** `ret` holds the matchers built from the first `|ret|` pairs of `all`. */
  predicate BuiltPrefix(ret: seq<SetnameMatcher>, all: seq<ConfigPair>, eng: Engines) {
    && |ret| <= |all|
    && forall k :: 0 <= k < |ret| ==> CreateSetnameMatcher(all[k].setname, all[k].source, eng) == Ok(ret[k])
  }

  lemma BuiltPrefixSnoc(ret: seq<SetnameMatcher>, all: seq<ConfigPair>, m: SetnameMatcher, eng: Engines)
    requires BuiltPrefix(ret, all, eng) && |ret| < |all|
    requires CreateSetnameMatcher(all[|ret|].setname, all[|ret|].source, eng) == Ok(m)
    ensures BuiltPrefix(ret + [m], all, eng)
  {
    assert forall k :: 0 <= k < |ret| ==> (ret + [m])[k] == ret[k];
  }

  lemma BuiltPrefixComplete(ret: seq<SetnameMatcher>, all: seq<ConfigPair>, eng: Engines)
    requires BuiltPrefix(ret, all, eng) && |ret| == |all|
    ensures MatchersOf(all, eng) == Ok(ret)
  {
    var r := MatchersOf(all, eng);
    assert r.Ok?;
    assert |r.value| == |ret|;
    assert forall k :: 0 <= k < |ret| ==> r.value[k] == ret[k];
    assert r.value == ret;
  }

  /** `to_setname_matchers`: nested loops over the entries and their pattern lists, pushing
      one matcher per pair and returning the first error with no partial list. */
  method ToSetnameMatchers(configSet: seq<Entry>, eng: Engines) returns (r: Result<seq<SetnameMatcher>>)
    requires IsBTreeMap(configSet)
    ensures r == MatchersOf(Pairs(configSet), eng)
  {
    ghost var all := Pairs(configSet);
    var ret: seq<SetnameMatcher> := [];
    var i := 0;
    while i < |configSet|
      invariant 0 <= i <= |configSet|
      invariant |ret| == |Pairs(configSet[..i])| <= |all|
      invariant all[..|ret|] == Pairs(configSet[..i])
      invariant BuiltPrefix(ret, all, eng)
    {
      var entry := configSet[i];
      var setname := entry.setname;
      ghost var before := Pairs(configSet[..i]);
      ghost var after := Pairs(configSet[i + 1..]);
      PairsSplitAt(configSet, i);

      var j := 0;
      while j < |entry.patterns|
        invariant 0 <= j <= |entry.patterns|
        invariant |ret| == |before| + j
        invariant BuiltPrefix(ret, all, eng)
      {
        IndexInMiddle(before, EntryPairs(entry), after, j);
        assert all[|ret|] == ConfigPair(setname, entry.patterns[j]);
        var m := CreateSetnameMatcher(setname, entry.patterns[j], eng);
        if m.Err? {
          MatchersOfFirstFailure(all, |ret|, eng);
          return Err(m.error);
        }
        BuiltPrefixSnoc(ret, all, m.value, eng);
        ret := ret + [m.value];
        j := j + 1;
      }
      assert all[..|ret|] == Pairs(configSet[..i + 1]);
      i := i + 1;
    }
    assert configSet[..i] == configSet;
    BuiltPrefixComplete(ret, all, eng);
    return Ok(ret);
  }

  /** An entry with an empty pattern list yields no pair, so its set name is never checked:
      removing it changes nothing. */
  lemma EmptyPatternListUnchecked(before: seq<Entry>, setname: Str, after: seq<Entry>, eng: Engines)
    ensures MatchersOf(Pairs(before + [Entry(setname, [])] + after), eng) == MatchersOf(Pairs(before + after), eng)
  {
    PairsAppend(before + [Entry(setname, [])], after);
    PairsAppend(before, [Entry(setname, [])]);
    PairsAppend(before, after);
    var empty := [Entry(setname, [])];
    assert empty[..0] == [];
    assert EntryPairs(Entry(setname, [])) == [];
    assert Pairs(empty) == [];
    assert Pairs(before + empty + after) == Pairs(before) + Pairs(after);
  }

  /** The matchers of a successful build follow map-key order: set names never decrease. */
  lemma MatchersInKeyOrder(configSet: seq<Entry>, eng: Engines)
    requires IsBTreeMap(configSet)
    requires MatchersOf(Pairs(configSet), eng).Ok?
    ensures var ms := MatchersOf(Pairs(configSet), eng).value;
      forall i, j :: 0 <= i < j < |ms| ==> ms[i].setname == ms[j].setname || ByteLess(ms[i].setname, ms[j].setname)
  {
    PairsInKeyOrder(configSet);
  }

  /** The two pattern maps of the configuration file. */
  datatype IpsetConfig = IpsetConfig(ipv4: seq<Entry>, ipv6: seq<Entry>)

  /** `parse_ipsetconfig`: the IPv4 list is built first, and its failure is returned before
      the IPv6 list is built. */
  method ParseIpsetConfig(ipsetConfig: IpsetConfig, eng: Engines)
    returns (r: Result<(seq<SetnameMatcher>, seq<SetnameMatcher>)>)
    requires IsBTreeMap(ipsetConfig.ipv4) && IsBTreeMap(ipsetConfig.ipv6)
    ensures var v4 := MatchersOf(Pairs(ipsetConfig.ipv4), eng);
            var v6 := MatchersOf(Pairs(ipsetConfig.ipv6), eng);
            && (v4.Err? ==> r == Err(v4.error))
            && (v4.Ok? && v6.Err? ==> r == Err(v6.error))
            && (r.Ok? <==> v4.Ok? && v6.Ok?)
            && (r.Ok? ==> r.value == (v4.value, v6.value))
  {
    var ipv4set := ToSetnameMatchers(ipsetConfig.ipv4, eng);
    if ipv4set.Err? {
      return Err(ipv4set.error);
    }
    var ipv6set := ToSetnameMatchers(ipsetConfig.ipv6, eng);
    if ipv6set.Err? {
      return Err(ipv6set.error);
    }
    return Ok((ipv4set.value, ipv6set.value));
  }

  //
  // Lookups
  //

  /** `find_setnames`: the names of the matchers that accept `value`, as a set. */
  function FindSetnames(ipset: seq<SetnameMatcher>, value: Str, eng: Engines): (r: set<Str>)
    ensures forall name :: name in r <==>
              exists i :: 0 <= i < |ipset| && ipset[i].setname == name && ipset[i].Matches(value, eng)
  {
    if |ipset| == 0 then {}
    else
      var rest := FindSetnames(ipset[1..], value, eng);
      assert forall i :: 1 <= i < |ipset| ==> ipset[i] == ipset[1..][i - 1];
      (if ipset[0].Matches(value, eng) then {ipset[0].setname} else {}) + rest
  }

  /** The lookup does not depend on the order of the matchers, nor on repeats. */
  lemma FindSetnamesOrderIndependent(a: seq<SetnameMatcher>, b: seq<SetnameMatcher>, value: Str, eng: Engines)
    requires forall m :: m in a <==> m in b
    ensures FindSetnames(a, value, eng) == FindSetnames(b, value, eng)
  {
    forall name | name in FindSetnames(a, value, eng) ensures name in FindSetnames(b, value, eng) {
      var i :| 0 <= i < |a| && a[i].setname == name && a[i].Matches(value, eng);
      assert a[i] in b;
      var j :| 0 <= j < |b| && b[j] == a[i];
    }
    forall name | name in FindSetnames(b, value, eng) ensures name in FindSetnames(a, value, eng) {
      var j :| 0 <= j < |b| && b[j].setname == name && b[j].Matches(value, eng);
      assert b[j] in a;
      var i :| 0 <= i < |a| && a[i] == b[j];
    }
  }

  /** The routing table: the matcher lists per address family. The listen address, upstream
      address and flags of the source's `Config` come from the command line and are left out. */
  datatype Config = Config(ipsetV4: seq<SetnameMatcher>, ipsetV6: seq<SetnameMatcher>) {
    function FindSetnamesIpv4(value: Str, eng: Engines): (r: set<Str>)
      ensures forall name :: name in r <==>
                exists i :: 0 <= i < |ipsetV4| && ipsetV4[i].setname == name && ipsetV4[i].Matches(value, eng)
    {
      FindSetnames(ipsetV4, value, eng)
    }

    function FindSetnamesIpv6(value: Str, eng: Engines): (r: set<Str>)
      ensures forall name :: name in r <==>
                exists i :: 0 <= i < |ipsetV6| && ipsetV6[i].setname == name && ipsetV6[i].Matches(value, eng)
    {
      FindSetnames(ipsetV6, value, eng)
    }
  }

  /** The IPv4 lookup sees only the IPv4 list and the IPv6 lookup only the IPv6 list. */
  lemma LookupsConsultOwnFamily(c: Config, d: Config, value: Str, eng: Engines)
    ensures c.ipsetV4 == d.ipsetV4 ==> c.FindSetnamesIpv4(value, eng) == d.FindSetnamesIpv4(value, eng)
    ensures c.ipsetV6 == d.ipsetV6 ==> c.FindSetnamesIpv6(value, eng) == d.FindSetnamesIpv6(value, eng)
  {
  }

  /** A set name found after a successful build is a key whose list holds a pattern string
      that, read by its prefix, accepts the value. */
  lemma FoundOnlyByOwnPattern(configSet: seq<Entry>, value: Str, name: Str, eng: Engines)
    requires MatchersOf(Pairs(configSet), eng).Ok?
    requires name in FindSetnames(MatchersOf(Pairs(configSet), eng).value, value, eng)
    ensures exists k :: 0 <= k < |configSet| && configSet[k].setname == name &&
              exists src :: src in configSet[k].patterns && PatternMatches(ClassifyPattern(src), value, eng)
  {
    var pairs := Pairs(configSet);
    var ms := MatchersOf(pairs, eng).value;
    var i :| 0 <= i < |ms| && ms[i].setname == name && ms[i].Matches(value, eng);
    assert Ok(ms[i]) == CreateSetnameMatcher(pairs[i].setname, pairs[i].source, eng);
    PairsMembership(configSet, pairs[i]);
  }

  /** A key whose list holds a pattern string accepting the value is found after a successful
      build. */
  lemma FoundByEveryMatchingPattern(configSet: seq<Entry>, value: Str, k: nat, src: Str, eng: Engines)
    requires MatchersOf(Pairs(configSet), eng).Ok?
    requires k < |configSet| && src in configSet[k].patterns && PatternMatches(ClassifyPattern(src), value, eng)
    ensures configSet[k].setname in FindSetnames(MatchersOf(Pairs(configSet), eng).value, value, eng)
  {
    var pairs := Pairs(configSet);
    var ms := MatchersOf(pairs, eng).value;
    var name := configSet[k].setname;
    PairsMembership(configSet, ConfigPair(name, src));
    var i :| 0 <= i < |pairs| && pairs[i] == ConfigPair(name, src);
    assert Ok(ms[i]) == CreateSetnameMatcher(name, src, eng);
  }

  /** Build and lookup together: after a successful build, a set name is found for a value
      exactly when it is a key of the map whose list holds a pattern string that, read by
      its prefix, accepts the value. */
  lemma LookupAfterBuild(configSet: seq<Entry>, value: Str, name: Str, eng: Engines)
    requires MatchersOf(Pairs(configSet), eng).Ok?
    ensures name in FindSetnames(MatchersOf(Pairs(configSet), eng).value, value, eng)
            <==> exists k :: 0 <= k < |configSet| && configSet[k].setname == name &&
                   exists src :: src in configSet[k].patterns && PatternMatches(ClassifyPattern(src), value, eng)
  {
    if name in FindSetnames(MatchersOf(Pairs(configSet), eng).value, value, eng) {
      FoundOnlyByOwnPattern(configSet, value, name, eng);
    }
    if exists k :: 0 <= k < |configSet| && configSet[k].setname == name &&
         exists src :: src in configSet[k].patterns && PatternMatches(ClassifyPattern(src), value, eng)
    {
      var k, src :| 0 <= k < |configSet| && configSet[k].setname == name &&
        src in configSet[k].patterns && PatternMatches(ClassifyPattern(src), value, eng);
      FoundByEveryMatchingPattern(configSet, value, k, src, eng);
    }
  }

  /** An exact rule `(name, domain)` that was built routes that domain to `name`. */
  lemma ExactRuleFound(configSet: seq<Entry>, k: nat, domain: Str, eng: Engines)
    requires MatchersOf(Pairs(configSet), eng).Ok?
    requires k < |configSet| && domain in configSet[k].patterns
    requires !StartsWith(domain, GlobPrefix) && !StartsWith(domain, RegexPrefix)
    ensures configSet[k].setname in FindSetnames(MatchersOf(Pairs(configSet), eng).value, domain, eng)
  {
    FoundByEveryMatchingPattern(configSet, domain, k, domain, eng);
  }
}
