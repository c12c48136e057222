/** The routing matcher: rule tables by prefix length, domain rules, and the decision. */
module Matchers {
  import opened Prelude
  import opened Texts
  import opened Addresses
  import opened DomainNames

  /** `part` is the whole name, or what follows one of its dots. */
  predicate DotTail(name: string, part: string) {
    || name == part
    || (|part| < |name| && name[|name| - |part|..] == part && name[|name| - |part| - 1] == '.')
  }

  lemma DotTailIs(name: string, part: string)
    ensures DotTail(name, part) <==> name == part || exists head: string :: name == head + "." + part
  {
    var i := |name| - |part|;
    if |part| < |name| && DotTail(name, part) {
      assert name == name[..i - 1] + "." + part;
    }
    if head: string :| name == head + "." + part {
      assert name[i..] == part && name[i - 1] == '.';
    }
  }

  predicate SuffixHit(suffixes: set<string>, name: string) {
    exists part :: part in suffixes && DotTail(name, part)
  }

  lemma SuffixHitGrows(suffixes: set<string>, suffix: string, name: string)
    ensures SuffixHit(suffixes + {suffix}, name) <==> SuffixHit(suffixes, name) || DotTail(name, suffix)
  {
    if SuffixHit(suffixes, name) {
      var part :| part in suffixes && DotTail(name, part);
      assert part in suffixes + {suffix};
    }
    if DotTail(name, suffix) {
      assert suffix in suffixes + {suffix};
    }
  }

  predicate OccursAt(text: string, part: string, i: int) {
    0 <= i <= |text| - |part| && text[i..i + |part|] == part
  }

  predicate Contains(text: string, part: string) {
    exists i :: 0 <= i <= |text| - |part| && OccursAt(text, part, i)
  }

  lemma ContainsIs(text: string, part: string)
    ensures Contains(text, part) <==> exists head: string, tail: string :: text == head + part + tail
  {
    if Contains(text, part) {
      var i :| 0 <= i <= |text| - |part| && OccursAt(text, part, i);
      assert text == text[..i] + part + text[i + |part|..];
    }
    if head: string, tail: string :| text == head + part + tail {
      assert text[|head|..|head| + |part|] == part;
      assert OccursAt(text, part, |head|);
    }
  }

  /** A shorter dot tail of a name is a dot tail of what follows the name's first dot. */
  lemma TailOfTail(name: string, part: string, dot: nat)
    requires dot < |name| && name[dot] == '.' && '.' !in name[..dot]
    requires DotTail(name, part) && part != name
    ensures DotTail(name[dot + 1..], part)
  {
    var i := |name| - |part| - 1;
    forall j | 0 <= j < dot ensures name[j] != '.' {
      assert name[j] in name[..dot];
    }
    assert name[i] == '.' && i >= dot;
    assert name[dot + 1..][|name| - dot - 1 - |part|..] == part;
  }

  lemma NoDotNoTail(name: string, part: string)
    requires '.' !in name && DotTail(name, part)
    ensures part == name
  {
    forall i | 0 <= i < |name| ensures name[i] != '.' {
      assert name[i] in name;
    }
  }

  lemma TailsCompose(name: string, middle: string, part: string)
    requires DotTail(name, middle) && DotTail(middle, part)
    ensures DotTail(name, part)
  {
    if name != middle && middle != part {
      var i := |name| - |middle|;
      assert name[i..][|middle| - |part|..] == name[|name| - |part|..];
      assert name[|name| - |part| - 1] == middle[|middle| - |part| - 1];
    }
  }

  /** The plain scan over the prefixes added: some of them covers the address. */
  ghost predicate AddressHit(added: set<Prefix>, a: Addr)
    requires a.Valid()
  {
    exists p :: p in added && p.Valid() && Acceptable(p) && Covers(p, a)
  }

  lemma AddressHitGrows(added: set<Prefix>, p: Prefix, a: Addr)
    requires p.Valid() && Acceptable(p) && a.Valid()
    ensures AddressHit(added + {p}, a) <==> AddressHit(added, a) || Covers(p, a)
  {
    if AddressHit(added, a) {
      var q :| q in added && q.Valid() && Acceptable(q) && Covers(q, a);
      assert q in added + {p};
    }
    assert p in added + {p};
  }

  /** The text of a host that may be an address: trimmed, without brackets. */
  function HostText(value: string): string {
    var text := TrimSpace(value);
    var open := if text != "" && text[0] == '[' then text[1..] else text;
    if open != "" && open[|open| - 1] == ']' then open[..|open| - 1] else open
  }

  /** Spaces and one pair of brackets around a host make no difference. */
  lemma HostTextIs(left: string, host: string, right: string)
    requires AllSpaces(left) && AllSpaces(right) && host != "" && !IsSpace(host[0]) && !IsSpace(host[|host| - 1])
    requires host[0] != '[' && host[|host| - 1] != ']'
    ensures HostText(left + host + right) == host
    ensures HostText(left + ("[" + host + "]") + right) == host
  {
    TrimsBoth(left, host, right);
    var boxed := "[" + host + "]";
    TrimsBoth(left, boxed, right);
    assert boxed[1..] == host + "]" && (host + "]")[..|host|] == host;
  }

  class Matcher {
    const ipv4: array<set<Addr>>
    const ipv6: array<set<Addr>>
    var domainSuffixes: set<string>
    var exactDomains: set<string>
    var keywords: seq<string>
    var regexps: seq<string -> bool>

    /** The prefixes added so far, and the forms in which the tables hold them. */
    ghost var added: set<Prefix>
    ghost var held: set<Prefix>

    ghost predicate Holds(q: Prefix)
      requires q.Valid() && ipv4.Length == 33 && ipv6.Length == 129
      reads ipv4, ipv6
    {
      if q.addr.V4? then q.addr in ipv4[q.bits] else q.addr in ipv6[q.bits]
    }

    ghost predicate TablesMatch()
      reads `held, ipv4, ipv6
    {
      && ipv4.Length == 33 && ipv6.Length == 129 && ipv4 != ipv6
      && (forall q: Prefix :: q.Valid() ==> (Holds(q) <==> q in held))
    }

    ghost predicate Valid()
      reads this, ipv4, ipv6
    {
      && TablesMatch()
      && (forall p :: p in added ==> p.Valid() && Acceptable(p) && Stored(p) in held)
      && (forall q :: q in held ==> exists p :: p in added && p.Valid() && Acceptable(p) && Stored(p) == q)
      && "" !in domainSuffixes
    }

    constructor ()
      ensures Valid() && fresh(ipv4) && fresh(ipv6)
      ensures added == {} && domainSuffixes == {} && exactDomains == {} && keywords == [] && regexps == []
    {
      ipv4, ipv6 := new set<Addr>[33](_ => {}), new set<Addr>[129](_ => {});
      domainSuffixes, exactDomains, keywords, regexps, added, held := {}, {}, [], [], {}, {};
    }

    method Store(q: Prefix)
      requires TablesMatch() && q.Valid()
      modifies `held, ipv4, ipv6
      ensures TablesMatch() && held == old(held) + {q}
    {
      if q.addr.V4? {
        ipv4[q.bits] := ipv4[q.bits] + {q.addr};
      } else {
        ipv6[q.bits] := ipv6[q.bits] + {q.addr};
      }
      held := held + {q};
    }

    /** Adds a prefix, unless it cuts into the mapped part of a mapped one. */
    method AddParsedPrefix(p: Prefix) returns (ok: bool)
      requires Valid() && p.Valid()
      modifies `added, `held, ipv4, ipv6
      ensures Valid() && (ok <==> Acceptable(p))
      ensures added == if ok then old(added) + {p} else old(added)
    {
      hide TablesMatch;
      if Is4In6(p.addr) && p.bits < 96 {
        return false;
      }
      var addr, bits := Mask(p.addr, p.bits), p.bits;
      MaskKeepsMapped(p);
      if Is4In6(addr) {
        addr, bits := Unmap(addr), bits - 96;
      }
      SameMask(addr, addr, bits);
      Store(Prefix(if addr.V4? then Mask(addr, bits) else addr, bits));
      added := added + {p};
      ok := true;
    }

    // -------------------------------------------------------- the decision

    lemma TablesTellHit(a: Addr)
      requires Valid() && a.Valid()
      ensures var b := Unmap(a);
        AddressHit(added, a) <==> exists n: nat :: n <= b.Width() && Prefix(Mask(b, n), n) in held
    {
      hide TablesMatch, Covers, Stored;
      var b := Unmap(a);
      if AddressHit(added, a) {
        var p :| p in added && p.Valid() && Acceptable(p) && Covers(p, a);
        StoredMeansCovers(p, a);
        assert Stored(p) == Prefix(Mask(b, Stored(p).bits), Stored(p).bits);
      }
      if n: nat :| n <= b.Width() && Prefix(Mask(b, n), n) in held {
        var p :| p in added && p.Valid() && Acceptable(p) && Stored(p) == Prefix(Mask(b, n), n);
        StoredMeansCovers(p, a);
      }
    }

    /** Looks an address up at every prefix length, longest first. */
    method ScanTables(b: Addr) returns (hit: bool)
      requires TablesMatch() && b.Valid()
      ensures hit <==> exists n: nat :: n <= b.Width() && Prefix(Mask(b, n), n) in held
    {
      var bits := b.Width();
      while bits >= 0
        invariant -1 <= bits <= b.Width()
        invariant forall n: nat :: bits < n <= b.Width() ==> Prefix(Mask(b, n), n) !in held
      {
        assert Holds(Prefix(Mask(b, bits), bits)) <==> Prefix(Mask(b, bits), bits) in held;
        var key := Mask(b, bits);
        if (b.V4? && key in ipv4[bits]) || (b.V6? && key in ipv6[bits]) {
          return true;
        }
        bits := bits - 1;
      }
      hit := false;
    }

    /** The table lookup agrees with the plain scan. */
    method MatchAddr(a: Addr) returns (hit: bool)
      requires Valid() && a.Valid()
      ensures hit <==> AddressHit(added, a)
    {
      TablesTellHit(a);
      hit := ScanTables(Unmap(a));
    }

    predicate DomainHit(domain: string)
      reads this
    {
      || domain in exactDomains
      || SuffixHit(domainSuffixes, domain)
      || (exists i :: 0 <= i < |keywords| && Contains(domain, keywords[i]))
      || (exists i :: 0 <= i < |regexps| && regexps[i](domain))
    }

    /** Walks up the labels of a name, then tries the keywords and the patterns. */
    method MatchDomain(domain: string) returns (hit: bool)
      requires Valid()
      ensures hit <==>
        || domain in exactDomains
        || (exists part :: part in domainSuffixes && DotTail(domain, part))
        || (exists i :: 0 <= i < |keywords| && Contains(domain, keywords[i]))
        || (exists i :: 0 <= i < |regexps| && regexps[i](domain))
      ensures hit <==> DomainHit(domain)
    {
      if domain in exactDomains {
        return true;
      }
      hit := MatchSuffixes(domain);
      if hit {
        return;
      }
      var i := 0;
      while i < |keywords|
        invariant 0 <= i <= |keywords|
        invariant forall j :: 0 <= j < i ==> !Contains(domain, keywords[j])
      {
        if Contains(domain, keywords[i]) {
          return true;
        }
        i := i + 1;
      }
      i := 0;
      while i < |regexps|
        invariant 0 <= i <= |regexps|
        invariant forall j :: 0 <= j < i ==> !regexps[j](domain)
      {
        if regexps[i](domain) {
          return true;
        }
        i := i + 1;
      }
      hit := false;
    }

    method MatchSuffixes(domain: string) returns (hit: bool)
      requires "" !in domainSuffixes
      ensures hit <==> SuffixHit(domainSuffixes, domain)
    {
      var suffix := domain;
      while suffix != ""
        invariant DotTail(domain, suffix)
        invariant forall part :: part in domainSuffixes && DotTail(domain, part) ==> DotTail(suffix, part)
        decreases |suffix|
      {
        if suffix in domainSuffixes {
          return true;
        }
        var dot := FirstIndex(suffix, '.');
        if dot < 0 {
          forall part | part in domainSuffixes && DotTail(domain, part) ensures false {
            NoDotNoTail(suffix, part);
          }
          return false;
        }
        var next := suffix[dot + 1..];
        assert DotTail(suffix, next);
        TailsCompose(domain, suffix, next);
        forall part | part in domainSuffixes && DotTail(domain, part) ensures DotTail(next, part) {
          TailOfTail(suffix, part, dot);
        }
        suffix := next;
      }
      hit := false;
    }

    /** What the host strings of a request can name: an address, as `parse` reads it,
        with brackets, zone and mapping stripped, or a domain. */
    ghost predicate HostHit(parse: string -> Option<Addr>, host: string)
      reads `added
    {
      var a := parse(HostText(host));
      a.Some? && a.value.Valid() && AddressHit(added, a.value)
    }

    method ParseAddr(parse: string -> Option<Addr>, value: string) returns (a: Option<Addr>)
      requires forall s :: parse(s).Some? ==> parse(s).value.Valid()
      ensures a == match parse(HostText(value))
        case Some(b) => Some(Unmap(b))
        case None => None
    {
      var parsed := parse(HostText(value));
      a := if parsed.Some? then Some(Unmap(parsed.value)) else None;
    }

    /** The routing decision: the original host or what it resolved to is an address some
        prefix covers, or the original host is a name some domain rule hits. */
    method Match(parse: string -> Option<Addr>, originalHost: string, resolvedHost: string) returns (hit: bool)
      requires Valid() && forall s :: parse(s).Some? ==> parse(s).value.Valid()
      ensures var original, resolved, domain :=
          parse(HostText(originalHost)), parse(HostText(resolvedHost)), Normalized(originalHost);
        hit <==>
          || (original.Some? && AddressHit(added, original.value))
          || (domain.Some? && DomainHit(domain.value))
          || (resolved.Some? && AddressHit(added, resolved.value))
      ensures hit <==>
        || HostHit(parse, originalHost)
        || (Normalized(originalHost).Some? && DomainHit(Normalized(originalHost).value))
        || HostHit(parse, resolvedHost)
    {
      hit := MatchHost(parse, originalHost);
      if hit {
        return;
      }
      var domain := NormalizeDomain(originalHost);
      if domain.Some? {
        hit := MatchDomain(domain.value);
        if hit {
          return;
        }
      }
      hit := MatchHost(parse, resolvedHost);
    }

    method MatchHost(parse: string -> Option<Addr>, host: string) returns (hit: bool)
      requires Valid() && forall s :: parse(s).Some? ==> parse(s).value.Valid()
      ensures hit <==> HostHit(parse, host)
    {
      hide TablesMatch;
      var a := ParseAddr(parse, host);
      hit := false;
      if a.Some? {
        UnmappedHit(parse(HostText(host)).value);
        hit := MatchAddr(a.value);
      }
    }

    lemma UnmappedHit(a: Addr)
      requires a.Valid()
      ensures AddressHit(added, Unmap(a)) <==> AddressHit(added, a)
    {
      UnmapKeepsAddress(a, a);
    }

    // ----------------------------------------------------- one line of rules

    /** Adds one manual rule, or rejects it and changes nothing. */
    method AddManualRule(parsePrefix: string -> Option<Prefix>, parse: string -> Option<Addr>, text: string)
      returns (ok: bool)
      requires Valid() && Parsers(parsePrefix, parse)
      modifies `added, `held, `domainSuffixes, `exactDomains, ipv4, ipv6
      ensures Valid()
      ensures var rule := ReadRule(parsePrefix, parse, text);
        && (ok <==> rule != Rejected)
        && added == (if rule.PrefixRule? then old(added) + {rule.prefix} else old(added))
        && domainSuffixes == (if rule.SuffixRule? then old(domainSuffixes) + {rule.name} else old(domainSuffixes))
        && exactDomains == (if rule.ExactRule? then old(exactDomains) + {rule.name} else old(exactDomains))
    {
      hide TablesMatch, Stored, Is4In6, ReadName;
      var prefix := parsePrefix(text);
      if prefix.Some? {
        ok := AddParsedPrefix(prefix.value);
        return;
      }
      var a := ParseAddr(parse, text);
      if a.Some? {
        UnmappedIsAcceptable(parse(HostText(text)).value);
        ok := AddParsedPrefix(Prefix(a.value, a.value.Width()));
        return;
      }
      ok := AddNamedRule(text);
    }

    /** The part of a manual rule's reading that deals with names. */
    method AddNamedRule(text: string) returns (ok: bool)
      requires Valid()
      modifies `domainSuffixes, `exactDomains
      ensures Valid()
      ensures var rule := ReadName(text);
        && (ok <==> rule != Rejected)
        && domainSuffixes == (if rule.SuffixRule? then old(domainSuffixes) + {rule.name} else old(domainSuffixes))
        && exactDomains == (if rule.ExactRule? then old(exactDomains) + {rule.name} else old(exactDomains))
    {
      hide TablesMatch, Normalized, Canonical, ToLower, TrimSpace, WellFormed;
      var kind, value := "domain", text;
      var colon := FirstIndex(text, ':');
      if colon >= 0 {
        kind, value := ToLower(TrimSpace(text[..colon])), TrimSpace(text[colon + 1..]);
      }
      var name := NormalizeDomain(value);
      if name.None? {
        return false;
      }
      NormalizedNotEmpty(value);
      if kind == "domain" || kind == "suffix" {
        domainSuffixes := domainSuffixes + {name.value};
      } else if kind == "full" {
        exactDomains := exactDomains + {name.value};
      } else {
        return false;
      }
      ok := true;
    }
  }

  lemma UnmappedIsAcceptable(a: Addr)
    requires a.Valid()
    ensures var b := Unmap(a); Acceptable(Prefix(b, b.Width()))
  {
  }

  /** What a line of manual rules means. */
  datatype Rule = PrefixRule(prefix: Prefix) | SuffixRule(name: string) | ExactRule(name: string) | Rejected

  /** The library's parsers for prefixes and addresses return proper ones. */
  ghost predicate Parsers(parsePrefix: string -> Option<Prefix>, parse: string -> Option<Addr>) {
    && (forall s :: parsePrefix(s).Some? ==> parsePrefix(s).value.Valid())
    && (forall s :: parse(s).Some? ==> parse(s).value.Valid())
  }

  function ReadRule(parsePrefix: string -> Option<Prefix>, parse: string -> Option<Addr>, text: string): Rule
    requires Parsers(parsePrefix, parse)
  {
    if parsePrefix(text).Some? then
      var p := parsePrefix(text).value;
      if Acceptable(p) then PrefixRule(p) else Rejected
    else if parse(HostText(text)).Some? then
      var a := Unmap(parse(HostText(text)).value);
      PrefixRule(Prefix(a, a.Width()))
    else
      ReadName(text)
  }

  function ReadName(text: string): (rule: Rule)
    ensures !rule.PrefixRule?
  {
    var colon := FirstIndex(text, ':');
    var kind := if colon < 0 then "domain" else ToLower(TrimSpace(text[..colon]));
    var name := Normalized(if colon < 0 then text else TrimSpace(text[colon + 1..]));
    if name.None? then Rejected
    else if kind == "domain" || kind == "suffix" then SuffixRule(name.value)
    else if kind == "full" then ExactRule(name.value)
    else Rejected
  }

  /** A line that is a prefix adds that prefix, unless it cuts into the mapped part; a line
      that is an address adds a prefix that covers that address in both forms only. */
  lemma AddressRuleIs(
      parsePrefix: string -> Option<Prefix>, parse: string -> Option<Addr>, text: string, b: Addr)
    requires Parsers(parsePrefix, parse) && b.Valid()
    ensures var rule := ReadRule(parsePrefix, parse, text);
      match parsePrefix(text)
      case Some(p) => rule == if p.addr.V6? && Is4In6(p.addr) && p.bits < 96 then Rejected else PrefixRule(p)
      case None =>
        match parse(HostText(text))
        case Some(a) =>
          && rule.PrefixRule? && rule.prefix.Valid() && Acceptable(rule.prefix)
          && (Covers(rule.prefix, b) <==> Unmap(b) == Unmap(a))
        case None => !rule.PrefixRule?
  {
    hide ReadName;
    if parsePrefix(text).None? && parse(HostText(text)).Some? {
      var a := parse(HostText(text)).value;
      UnmapKeepsAddress(a, a);
      HostRuleCoversOnlyHost(Unmap(a), b);
    }
  }

  lemma ColonIsFirst(kind: string, value: string)
    requires ':' !in kind
    ensures var text := kind + ":" + value;
      FirstIndex(text, ':') == |kind| && text[..|kind|] == kind && text[|kind| + 1..] == value
  {
    var text := kind + ":" + value;
    assert text[|kind|] == ':' && text[..|kind|] == kind;
    var i := FirstIndex(text, ':');
    assert i >= |kind| by { forall j | 0 <= j < |kind| ensures text[j] != ':' { assert text[j] in kind; } }
    assert i <= |kind| by {
      forall j | |kind| < j < |text| ensures ':' in text[..j] { assert text[..j][|kind|] == ':'; }
    }
  }

  lemma KindIsRead(left: string, kind: string, right: string, name: string)
    requires AllSpaces(left) && AllSpaces(right) && SpelledAs(kind, name) && name in {"full", "suffix", "domain"}
    ensures ToLower(TrimSpace(left + kind + right)) == name && ':' !in left + kind + right
  {
    forall i | 0 <= i < |name| ensures LabelChar(name[i]) {}
    LowersSpelling(kind, name);
    TrimsBoth(left, kind, right);
    var whole := left + kind + right;
    forall i | 0 <= i < |whole| ensures whole[i] != ':' {
      if i < |left| {
        assert IsSpace(left[i]);
      } else if i < |left + kind| {
        assert whole[i] == kind[i - |left|];
      } else {
        assert IsSpace(right[i - |left + kind|]);
      }
    }
  }

  /** A line without a colon is a suffix; "full:" makes it one exact name, and "suffix:" and
      "domain:", in capitals or not and with spaces around, a suffix. */
  lemma NamedRuleIs(left: string, kind: string, right: string, name: string, value: string)
    requires AllSpaces(left) && AllSpaces(right) && SpelledAs(kind, name) && name in {"full", "suffix", "domain"}
    ensures ReadName(left + kind + right + ":" + value) == match Normalized(TrimSpace(value))
      case None => Rejected
      case Some(domain) => if name == "full" then ExactRule(domain) else SuffixRule(domain)
    ensures ':' !in value ==> ReadName(value) == match Normalized(value)
      case None => Rejected
      case Some(domain) => SuffixRule(domain)
  {
    hide Normalized, TrimSpace, ToLower, AllSpaces, SpelledAs;
    KindIsRead(left, kind, right, name);
    ColonIsFirst(left + kind + right, value);
  }

  /** Any other word before the colon is rejected. */
  lemma OtherKindsAreRejected(kind: string, value: string)
    requires ':' !in kind
    ensures ReadName(kind + ":" + value) == Rejected || exists left: string, word: string, right: string ::
      kind == left + word + right && AllSpaces(left) && AllSpaces(right)
      && (SpelledAs(word, "full") || SpelledAs(word, "suffix") || SpelledAs(word, "domain"))
  {
    hide Normalized, ToLower, SpelledAs;
    ColonIsFirst(kind, value);
    if ReadName(kind + ":" + value) != Rejected {
      var left := LeftIsTrimmed(kind);
      var right := RightIsTrimmed(TrimLeft(kind));
      var word := TrimSpace(kind);
      assert kind == left + (word + right) == left + word + right;
      LowerIsSpelling(word);
    }
  }
}
