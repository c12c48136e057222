/** Domain names: how a name is normalised and which results are valid. Text is a
    sequence of Unicode code points. */
module DomainNames {
  import opened Prelude
  import opened Texts

  predicate IsSpace(c: char) {
    c in {'\t', '\n', '\U{0B}', '\U{0C}', '\r', ' ', '\U{85}', '\U{A0}', '\U{1680}', '\U{2028}', '\U{2029}',
          '\U{202F}', '\U{205F}', '\U{3000}'}
    || '\U{2000}' <= c <= '\U{200A}'
  }

  function TrimLeft(s: string): string {
    if s != [] && IsSpace(s[0]) then TrimLeft(s[1..]) else s
  }

  function TrimRight(s: string): string {
    if s != [] && IsSpace(s[|s| - 1]) then TrimRight(s[..|s| - 1]) else s
  }

  function TrimSpace(s: string): string { TrimRight(TrimLeft(s)) }

  /** Lower case, as far as it can yield an ASCII character: besides the ASCII capitals,
      the capital I with dot above and the Kelvin sign do. */
  function LowerChar(c: char): char {
    if 'A' <= c <= 'Z' then c - 'A' + 'a'
    else if c == '\U{130}' then 'i'
    else if c == '\U{212A}' then 'k'
    else c
  }

  function ToLower(s: string): string { seq(|s|, i requires 0 <= i < |s| => LowerChar(s[i])) }

  function TrimDot(s: string): string {
    if s != [] && s[|s| - 1] == '.' then s[..|s| - 1] else s
  }

  function Canonical(value: string): string { TrimDot(ToLower(TrimSpace(value))) }

  predicate Plain(c: char) { 'a' <= c <= 'z' || '0' <= c <= '9' }

  predicate LabelChar(c: char) { Plain(c) || c == '-' }

  predicate ValidLabel(part: string) {
    && 0 < |part| <= 63
    && part[0] != '-' && part[|part| - 1] != '-'
    && forall i :: 0 <= i < |part| ==> LabelChar(part[i])
  }

  predicate AllValid(labels: seq<string>) {
    forall i :: 0 <= i < |labels| ==> ValidLabel(labels[i])
  }

  function Normalized(value: string): Option<string> {
    var domain := Canonical(value);
    if 0 < |domain| <= 253 && AllValid(Split(domain, '.')) then Some(domain) else None
  }

  method IsValidLabel(part: string) returns (ok: bool)
    ensures ok <==> ValidLabel(part)
  {
    if part == "" || |part| > 63 || part[0] == '-' || part[|part| - 1] == '-' {
      return false;
    }
    var i := 0;
    while i < |part|
      invariant 0 <= i <= |part|
      invariant forall j :: 0 <= j < i ==> LabelChar(part[j])
    {
      if !LabelChar(part[i]) {
        return false;
      }
      i := i + 1;
    }
    ok := true;
  }

  method NormalizeDomain(value: string) returns (domain: Option<string>)
    ensures domain == Normalized(value)
  {
    var name := Canonical(value);
    if name == "" || |name| > 253 {
      return None;
    }
    var labels := Split(name, '.');
    var i := 0;
    while i < |labels|
      invariant 0 <= i <= |labels|
      invariant forall j :: 0 <= j < i ==> ValidLabel(labels[j])
    {
      var ok := IsValidLabel(labels[i]);
      if !ok {
        return None;
      }
      i := i + 1;
    }
    domain := Some(name);
  }

  // --------------------------------------------- what the accepted names are

  /** A name told by its characters alone, without cutting it into labels: letters,
      digits, hyphens and dots; a letter or digit at both ends and on both sides of
      every dot; and no 64 characters in a row without a dot. */
  ghost predicate WellFormed(name: string) {
    && name != []
    && (forall i :: 0 <= i < |name| ==> LabelChar(name[i]) || name[i] == '.')
    && Plain(name[0]) && Plain(name[|name| - 1])
    && (forall i :: 0 < i < |name| - 1 && name[i] == '.' ==> Plain(name[i - 1]) && Plain(name[i + 1]))
    && (forall i :: 0 <= i <= |name| - 64 ==> DotWithin(name, i))
  }

  ghost predicate DotWithin(name: string, i: nat)
    requires i + 64 <= |name|
  {
    exists j :: i <= j < i + 64 && name[j] == '.'
  }

  lemma AloneIsWellFormed(s: string)
    requires '.' !in s
    ensures WellFormed(s) <==> ValidLabel(s)
  {
    forall j | 0 <= j < |s| ensures s[j] != '.' {
      assert s[j] in s;
    }
    assert |s| >= 64 ==> !DotWithin(s, 0);
  }

  lemma HeadAndTail(s: string, i: nat)
    requires i < |s| && s[i] == '.' && '.' !in s[..i] && WellFormed(s)
    ensures ValidLabel(s[..i]) && WellFormed(s[i + 1..])
  {
    var head, tail := s[..i], s[i + 1..];
    assert 0 < i < |s| - 1;
    forall j | 0 <= j < i ensures LabelChar(head[j]) {
      assert head[j] in head && s[j] == head[j];
    }
    forall j | 0 <= j < i ensures s[j] != '.' {
      assert s[j] in s[..i];
    }
    assert i < 64 by {
      if |s| >= 64 { assert DotWithin(s, 0); }
    }
    forall j | 0 < j < |tail| - 1 && tail[j] == '.' ensures Plain(tail[j - 1]) && Plain(tail[j + 1]) {
      assert s[i + 1 + j] == '.' && s[i + j] == tail[j - 1] && s[i + 2 + j] == tail[j + 1];
    }
    forall j | 0 <= j <= |tail| - 64 ensures DotWithin(tail, j) {
      assert DotWithin(s, i + 1 + j);
      var k :| i + 1 + j <= k < i + 65 + j && s[k] == '.';
      assert tail[k - i - 1] == '.';
    }
  }

  lemma HeadTailJoin(s: string, i: nat)
    requires i < |s| && s[i] == '.' && ValidLabel(s[..i]) && WellFormed(s[i + 1..])
    ensures WellFormed(s)
  {
    var head, tail := s[..i], s[i + 1..];
    forall j | 0 <= j < i ensures LabelChar(s[j]) {
      assert s[j] == head[j];
    }
    forall j | 0 <= j < |s| ensures LabelChar(s[j]) || s[j] == '.' {
      if j < i { assert s[j] == head[j]; } else if j > i { assert s[j] == tail[j - i - 1]; }
    }
    assert s[0] == head[0] && s[i - 1] == head[i - 1];
    assert s[i + 1] == tail[0] && s[|s| - 1] == tail[|tail| - 1];
    forall j | 0 < j < |s| - 1 && s[j] == '.' ensures Plain(s[j - 1]) && Plain(s[j + 1]) {
      assert j >= i;
      if j > i {
        var k := j - i - 1;
        assert tail[k] == '.' && k > 0;
        assert tail[k - 1] == s[j - 1] && tail[k + 1] == s[j + 1];
      }
    }
    forall j | 0 <= j <= |s| - 64 ensures DotWithin(s, j) {
      if j > i {
        assert DotWithin(tail, j - i - 1);
        var k :| j - i - 1 <= k < j - i + 63 && tail[k] == '.';
        assert s[k + i + 1] == '.';
      }
    }
  }

  /** Checking the labels one by one accepts exactly the well-formed names. */
  lemma {:induction false} LabelsTellWellFormed(s: string)
    ensures AllValid(Split(s, '.')) <==> WellFormed(s)
    decreases |s|
  {
    var i := FirstIndex(s, '.');
    if i < 0 {
      SplitNone(s, '.');
      AloneIsWellFormed(s);
      assert AllValid([s]) <==> ValidLabel(s) by { assert [s][0] == s; }
    } else {
      SplitAtFirst(s, '.', i);
      LabelsTellWellFormed(s[i + 1..]);
      var head, rest := s[..i], Split(s[i + 1..], '.');
      assert AllValid([head] + rest) <==> ValidLabel(head) && AllValid(rest) by {
        assert ([head] + rest)[0] == head;
        assert forall j :: 0 <= j < |rest| ==> ([head] + rest)[j + 1] == rest[j];
      }
      if WellFormed(s) {
        HeadAndTail(s, i);
      }
      if ValidLabel(head) && WellFormed(s[i + 1..]) {
        HeadTailJoin(s, i);
      }
    }
  }

  /** Normalising accepts a value exactly if its trimmed, lower-cased form is a
      well-formed name of at most 253 characters, and then returns that form. */
  lemma NormalizedIsWellFormed(value: string)
    ensures match Normalized(value)
      case Some(name) => name == Canonical(value) && WellFormed(name) && |name| <= 253
      case None => !WellFormed(Canonical(value)) || |Canonical(value)| > 253
    ensures forall c :: LabelChar(c) <==> 'a' <= c <= 'z' || '0' <= c <= '9' || c == '-'
    ensures forall c :: Plain(c) <==> LabelChar(c) && c != '-'
  {
    LabelsTellWellFormed(Canonical(value));
  }

  lemma NormalizedNotEmpty(value: string)
    ensures Normalized(value).Some? ==> Normalized(value).value != ""
  {
  }

  lemma WellFormedIsCanonical(name: string)
    requires WellFormed(name)
    ensures Canonical(name) == name
  {
    assert TrimSpace(name) == name;
    forall i | 0 <= i < |name| ensures LowerChar(name[i]) == name[i] {
      assert LabelChar(name[i]) || name[i] == '.';
    }
    assert ToLower(name) == name;
  }

  /** Normalising is idempotent. */
  lemma NormalizedTwice(value: string)
    requires Normalized(value).Some?
    ensures Normalized(Normalized(value).value) == Normalized(value)
  {
    NormalizedIsWellFormed(value);
    WellFormedIsCanonical(Canonical(value));
  }

  // ------------------------------------------------ which texts stand for a name

  predicate AllSpaces(s: string) { forall i :: 0 <= i < |s| ==> IsSpace(s[i]) }

  /** The text is the name in capitals or small letters, in any mixture. */
  predicate SpelledAs(text: string, name: string) {
    && |text| == |name|
    && forall i :: 0 <= i < |text| ==>
      || text[i] == name[i]
      || ('A' <= text[i] <= 'Z' && name[i] as int == text[i] as int + 32)
      || (text[i] == '\U{130}' && name[i] == 'i')
      || (text[i] == '\U{212A}' && name[i] == 'k')
  }

  lemma {:induction false} TrimsLeft(left: string, s: string)
    requires AllSpaces(left) && (s == "" || !IsSpace(s[0]))
    ensures TrimLeft(left + s) == s
  {
    if left == "" {
      assert left + s == s;
    } else {
      assert (left + s)[1..] == left[1..] + s;
      TrimsLeft(left[1..], s);
    }
  }

  lemma {:induction false} TrimsRight(s: string, right: string)
    requires AllSpaces(right) && (s == "" || !IsSpace(s[|s| - 1]))
    ensures TrimRight(s + right) == s
  {
    if right == "" {
      assert s + right == s;
    } else {
      var n := |right| - 1;
      assert (s + right)[..|s| + n] == s + right[..n];
      TrimsRight(s, right[..n]);
    }
  }

  lemma TrimsBoth(left: string, s: string, right: string)
    requires AllSpaces(left) && AllSpaces(right) && s != "" && !IsSpace(s[0]) && !IsSpace(s[|s| - 1])
    ensures TrimSpace(left + s + right) == s
  {
    assert left + s + right == left + (s + right);
    TrimsLeft(left, s + right);
    TrimsRight(s, right);
  }

  lemma LowersSpelling(text: string, name: string)
    requires SpelledAs(text, name) && forall i :: 0 <= i < |name| ==> LabelChar(name[i]) || name[i] == '.'
    ensures ToLower(text) == name
    ensures forall i :: 0 <= i < |text| ==> !IsSpace(text[i])
  {
    forall i | 0 <= i < |text| ensures LowerChar(text[i]) == name[i] && !IsSpace(text[i]) {
      assert LabelChar(name[i]) || name[i] == '.';
    }
  }

  /** Spaces around a name, one dot behind it and capitals make no difference. */
  lemma SpellingIsNormalized(left: string, text: string, dot: string, right: string, name: string)
    requires AllSpaces(left) && AllSpaces(right) && dot in {"", "."}
    requires WellFormed(name) && |name| <= 253 && SpelledAs(text, name)
    ensures Normalized(left + text + dot + right) == Some(name)
  {
    hide TrimSpace, WellFormed, AllValid, AllSpaces, LowerChar, SpelledAs;
    var whole := text + dot;
    EndsAreNoSpaces(text, dot, name);
    assert left + text + dot + right == left + whole + right;
    TrimsBoth(left, whole, right);
    DotGoes(text, dot, name);
    LabelsTellWellFormed(name);
  }

  lemma EndsAreNoSpaces(text: string, dot: string, name: string)
    requires WellFormed(name) && SpelledAs(text, name) && dot in {"", "."}
    ensures var whole := text + dot; whole != "" && !IsSpace(whole[0]) && !IsSpace(whole[|whole| - 1])
    ensures name != ""
  {
    LowersSpelling(text, name);
  }

  lemma DotGoes(text: string, dot: string, name: string)
    requires WellFormed(name) && SpelledAs(text, name) && dot in {"", "."}
    ensures TrimDot(ToLower(text + dot)) == name
  {
    LowersSpelling(text, name);
    assert ToLower(text + dot) == ToLower(text) + dot;
    assert (name + ".")[..|name|] == name && name + "" == name;
  }

  lemma {:induction false} LeftIsTrimmed(s: string) returns (left: string)
    ensures AllSpaces(left) && s == left + TrimLeft(s)
  {
    left := "";
    if s != "" && IsSpace(s[0]) {
      var rest := LeftIsTrimmed(s[1..]);
      left := [s[0]] + rest;
      assert s == [s[0]] + s[1..];
    }
  }

  lemma {:induction false} RightIsTrimmed(s: string) returns (right: string)
    ensures AllSpaces(right) && s == TrimRight(s) + right
  {
    right := "";
    if s != "" && IsSpace(s[|s| - 1]) {
      var n := |s| - 1;
      var rest := RightIsTrimmed(s[..n]);
      right := rest + [s[n]];
      assert s == s[..n] + [s[n]];
    }
  }

  lemma LowerIsSpelling(word: string)
    ensures SpelledAs(word, ToLower(word))
  {
  }

  lemma DotIsTrimmed(whole: string) returns (text: string, dot: string)
    ensures whole == text + dot && dot in {"", "."} && ToLower(text) == TrimDot(ToLower(whole))
  {
    var n := |whole| - 1;
    text, dot := whole, "";
    if whole != "" && ToLower(whole)[n] == '.' {
      text, dot := whole[..n], ".";
      assert ToLower(text) == ToLower(whole)[..n];
    }
  }

  /** And nothing else is accepted: a text that stands for a name is that name, spelled in
      some way, with at most spaces around it and one dot behind it. */
  lemma NormalizedIsSpelling(value: string) returns (left: string, text: string, dot: string, right: string)
    requires Normalized(value).Some?
    ensures AllSpaces(left) && AllSpaces(right) && dot in {"", "."}
    ensures value == left + text + dot + right && SpelledAs(text, Normalized(value).value)
  {
    hide TrimLeft, TrimRight, TrimDot, ToLower, Split, AllValid, SpelledAs, AllSpaces;
    left := LeftIsTrimmed(value);
    right := RightIsTrimmed(TrimLeft(value));
    text, dot := DotIsTrimmed(TrimSpace(value));
    LowerIsSpelling(text);
    assert left + (text + dot + right) == left + text + dot + right;
  }
}
