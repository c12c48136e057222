/** Reading "host:port" text, and the library function that writes it. */
module HostPorts {
  import opened Prelude
  import opened Texts

  const DEFAULT_PORT := 443

  const MAX_INT := 0x7FFF_FFFF_FFFF_FFFF

  predicate InRange(n: int) { -MAX_INT - 1 <= n <= MAX_INT }

  /** A 64-bit integer as text. */
  function Itoa(n: int): string { if n < 0 then "-" + Decimal(-n) else Decimal(n) }

  predicate AllDigits(s: string) { s != "" && forall i :: 0 <= i < |s| ==> IsDigit(s[i]) }

  /** The integer that a text stands for, with an optional sign, if it is in range. */
  function Atoi(s: string): Option<int> {
    var digits := if s != "" && s[0] in {'+', '-'} then s[1..] else s;
    if !AllDigits(digits) then None
    else
      var n: int := if s[0] == '-' then 0 - DigitsValue(digits) else DigitsValue(digits);
      if InRange(n) then Some(n) else None
  }

  lemma AtoiReadsBack(n: int)
    requires InRange(n)
    ensures Atoi(Itoa(n)) == Some(n)
  {
    if n < 0 {
      DecimalReadsBack(-n);
      assert Itoa(n)[1..] == Decimal(-n);
    } else {
      DecimalReadsBack(n);
      assert IsDigit(Itoa(n)[0]);
    }
  }

  lemma ItoaCharacters(n: int)
    ensures forall i :: 0 <= i < |Itoa(n)| ==> Itoa(n)[i] == '-' || IsDigit(Itoa(n)[i])
  {
  }

  function LastIndex(s: string, c: char): (i: int)
    ensures -1 <= i < |s|
    ensures i >= 0 ==> s[i] == c
    ensures forall j :: i < j < |s| ==> s[j] != c
  {
    if s == "" then -1
    else if s[|s| - 1] == c then |s| - 1
    else LastIndex(s[..|s| - 1], c)
  }

  lemma LastIndexIs(s: string, c: char, i: nat)
    requires i < |s| && s[i] == c && forall j :: i < j < |s| ==> s[j] != c
    ensures LastIndex(s, c) == i
  {
  }

  lemma AbsentHasNoIndex(s: string, c: char)
    requires c !in s
    ensures LastIndex(s, c) == -1
  {
    forall j | 0 <= j < |s| ensures s[j] != c {
      assert s[j] in s;
    }
  }

  /** The library's inverse: hosts with a colon are put in brackets. */
  function JoinHostPort(host: string, port: string): string {
    if ':' in host then "[" + host + "]:" + port else host + ":" + port
  }

  function Unbracket(host: string): string {
    if host != "" && host[0] == '[' && host[|host| - 1] == ']' then host[1..|host| - 1] else host
  }

  function ParseHostPort(input: string): (string, int) {
    var lastColon, closeBracket := LastIndex(input, ':'), LastIndex(input, ']');
    if lastColon > -1 && lastColon > closeBracket && Atoi(input[lastColon + 1..]).Some? then
      (Unbracket(input[..lastColon]), Atoi(input[lastColon + 1..]).value)
    else
      (Unbracket(input), DEFAULT_PORT)
  }

  /** Whatever stands before the last colon and a number after it are taken apart. */
  lemma ParseTakesApart(left: string, port: int)
    requires InRange(port)
    ensures ParseHostPort(left + ":" + Itoa(port)) == (Unbracket(left), port)
  {
    var input, n := left + ":" + Itoa(port), |left|;
    ItoaCharacters(port);
    AtoiReadsBack(port);
    forall j | n < j < |input| ensures input[j] != ':' && input[j] != ']' {
      assert input[j] == Itoa(port)[j - n - 1];
    }
    LastIndexIs(input, ':', n);
    assert LastIndex(input, ']') < n;
    assert input[n + 1..] == Itoa(port) && input[..n] == left;
  }

  /** Parsing inverts joining, for every host without brackets, IPv6 addresses included,
      and every port. */
  lemma ParseInvertsJoin(host: string, port: int)
    requires '[' !in host && ']' !in host && InRange(port)
    ensures ParseHostPort(JoinHostPort(host, Itoa(port))) == (host, port)
  {
    if ':' in host {
      var left := "[" + host + "]";
      assert JoinHostPort(host, Itoa(port)) == left + ":" + Itoa(port);
      assert left[1..|left| - 1] == host;
      ParseTakesApart(left, port);
    } else {
      ParseTakesApart(host, port);
      assert host != "" ==> host[0] in host;
    }
  }

  /** A host without a port is returned as it is, with the default port, exactly if no
      number follows its last colon. */
  lemma BareHostIsKeptUnlessNumbered(host: string)
    requires '[' !in host && ']' !in host
    ensures var i := LastIndex(host, ':');
      ParseHostPort(host) == (host, 443) <==> i < 0 || Atoi(host[i + 1..]).None?
  {
    hide Atoi, LastIndex;
    assert Unbracket(host) == host by { assert host != "" ==> host[0] in host; }
    AbsentHasNoIndex(host, ']');
    var i := LastIndex(host, ':');
    if i >= 0 && Atoi(host[i + 1..]).Some? {
      assert |ParseHostPort(host).0| <= i < |host|;
    }
  }

  lemma HostWithoutColonGetsDefault(host: string)
    requires ':' !in host
    ensures ParseHostPort(host) == (Unbracket(host), 443)
  {
    AbsentHasNoIndex(host, ':');
  }

  /** An IPv6 address in brackets but without a port keeps its colons. */
  lemma BracketedHostGetsDefault(host: string)
    requires '[' !in host && ']' !in host
    ensures ParseHostPort("[" + host + "]") == (host, 443)
  {
    var input := "[" + host + "]";
    LastIndexIs(input, ']', |host| + 1);
    assert input[1..|input| - 1] == host;
  }

  /** A bare IPv6 address can lose its last group to the port. */
  lemma BareLoopbackIsMisread()
    ensures ParseHostPort("::1") == (":", 1)
  {
    var input := "::1";
    LastIndexIs(input, ':', 1);
    assert input[2..] == "1" && input[..1] == ":";
    assert DigitsValue("1") == 1 by { assert "1"[..0] == ""; }
  }
}
