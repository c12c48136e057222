/** HTTPS resource records: the generic text form they are handed on in, and the decoder
    of their wire form. */
module HttpsRecords {
  import opened Prelude
  import opened Texts

  datatype Fault = InvalidFormat | BadHex | TooShort | NameCutOff | LabelCutOff | ValueCutOff

  datatype Result<+T> = Ok(value: T) | Err(fault: Fault)

  datatype HttpsRecord = HttpsRecord(
    priority: nat,
    target: seq<Byte>,
    params: map<string, string>,
    ech: Option<seq<Byte>>)

  datatype Param = Param(key: nat, value: seq<Byte>) {
    predicate Valid() { key < 65536 && |value| < 65536 }
  }

  const DOT: Byte := 46

  // ------------------------------------------------- the generic text form

  /** Record data in the generic notation (section 5 of RFC 3597). */
  function Print(raw: seq<Byte>): string {
    "\\# " + Decimal(|raw|) + " " + Hex(raw)
  }

  function DropSpaces(s: string): string {
    if s == "" then "" else (if s[0] == ' ' then "" else [s[0]]) + DropSpaces(s[1..])
  }

  /** The third of three parts separated by spaces; it may contain spaces itself. */
  function ThirdPart(text: string): Option<string> {
    var i := FirstIndex(text, ' ');
    if i < 0 then None
    else
      var rest := text[i + 1..];
      var j := FirstIndex(rest, ' ');
      if j < 0 then None else Some(rest[j + 1..])
  }

  function ReadRaw(text: string): Result<seq<Byte>> {
    match ThirdPart(text)
    case None => Err(InvalidFormat)
    case Some(part) =>
      match FromHex(DropSpaces(part))
      case None => Err(BadHex)
      case Some(raw) => Ok(raw)
  }

  lemma {:induction false} NoSpacesToDrop(s: string)
    requires ' ' !in s
    ensures DropSpaces(s) == s
  {
    if s != "" { NoSpacesToDrop(s[1..]); }
  }

  lemma FirstSpace(a: string, b: string)
    requires ' ' !in a
    ensures FirstIndex(a + " " + b, ' ') == |a|
    ensures (a + " " + b)[|a| + 1..] == b
  {
    var s := a + " " + b;
    assert s[|a|] == ' ';
    var i := FirstIndex(s, ' ');
    assert i >= |a| by { forall j | 0 <= j < |a| ensures s[j] != ' ' { assert s[j] in a; } }
    assert i <= |a| by { forall j | |a| < j < |s| ensures s[|a|] in s[..j] { assert s[..j][|a|] == ' '; } }
  }

  /** The bytes are read back from the text, whatever length the text declares for them:
      the decoder does not compare the two. */
  lemma RawReadsBack(raw: seq<Byte>, length: string)
    requires ' ' !in length
    ensures ReadRaw("\\# " + length + " " + Hex(raw)) == Ok(raw)
  {
    var text := "\\# " + length + " " + Hex(raw);
    assert text == "\\#" + " " + (length + " " + Hex(raw));
    FirstSpace("\\#", length + " " + Hex(raw));
    FirstSpace(length, Hex(raw));
    HexReadsBack(raw);
    NoSpacesToDrop(Hex(raw));
  }

  /** Printed record data is read back unchanged. */
  lemma PrintReadsBack(raw: seq<Byte>)
    ensures ReadRaw(Print(raw)) == Ok(raw)
  {
    RawReadsBack(raw, Decimal(|raw|));
  }

  lemma {:induction false} DropsInParts(a: string, b: string)
    ensures DropSpaces(a + b) == DropSpaces(a) + DropSpaces(b)
  {
    if a == "" {
      assert a + b == b;
    } else {
      assert (a + b)[1..] == a[1..] + b;
      DropsInParts(a[1..], b);
    }
  }

  function Concat(parts: seq<string>): string {
    if parts == [] then "" else parts[0] + Concat(parts[1..])
  }

  lemma {:induction false} SpacesVanish(parts: seq<string>)
    requires forall i :: 0 <= i < |parts| ==> ' ' !in parts[i]
    ensures DropSpaces(Join(parts, ' ')) == Concat(parts)
  {
    if |parts| == 1 {
      NoSpacesToDrop(parts[0]);
      assert Concat(parts[1..]) == "" && parts[0] + "" == parts[0];
    } else if parts != [] {
      SpacesVanish(parts[1..]);
      NoSpacesToDrop(parts[0]);
      DropsInParts(parts[0] + " ", Join(parts[1..], ' '));
      DropsInParts(parts[0], " ");
      assert DropSpaces(" ") == "";
    }
  }

  /** Spaces between the digits make no difference. */
  lemma SpacedReadsBack(raw: seq<Byte>, length: string, parts: seq<string>)
    requires ' ' !in length && (forall i :: 0 <= i < |parts| ==> ' ' !in parts[i]) && Concat(parts) == Hex(raw)
    ensures ReadRaw("\\# " + length + " " + Join(parts, ' ')) == Ok(raw)
  {
    var digits := Join(parts, ' ');
    var text := "\\# " + length + " " + digits;
    assert text == "\\#" + " " + (length + " " + digits);
    FirstSpace("\\#", length + " " + digits);
    FirstSpace(length, digits);
    SpacesVanish(parts);
    HexReadsBack(raw);
  }

  lemma DigitsHaveNoSpace(n: nat)
    ensures ' ' !in Decimal(n)
  {
  }

  lemma JoinThree(a: string, b: string, c: string)
    ensures Join([a, b, c], ' ') == a + " " + (b + " " + c)
  {
    assert [a, b, c][1..] == [b, c] && [b, c][1..] == [c];
    assert Join([b, c], ' ') == b + [' '] + Join([c], ' ') == b + " " + c;
    assert Join([a, b, c], ' ') == a + [' '] + Join([b, c], ' ');
  }

  /** The printed form has three parts: the mark, the number of bytes, and the bytes. */
  lemma PrintIs(raw: seq<Byte>) returns (length: string, digits: string)
    ensures Split(Print(raw), ' ') == ["\\#", length, digits]
    ensures (forall i :: 0 <= i < |length| ==> IsDigit(length[i])) && DigitsValue(length) == |raw|
    ensures FromHex(digits) == Some(raw)
  {
    hide Split, Decimal, Hex, FromHex, DigitsValue;
    length, digits := Decimal(|raw|), Hex(raw);
    HexReadsBack(raw);
    DecimalReadsBack(|raw|);
    DigitsHaveNoSpace(|raw|);
    JoinThree("\\#", length, digits);
    assert Print(raw) == "\\#" + " " + (length + " " + digits);
    SplitJoin(["\\#", length, digits], ' ');
  }

  // -------------------------------------------------------- the wire form

  function Encode16(n: nat): (b: seq<Byte>)
    requires n < 65536
    ensures |b| == 2
  {
    [n / 256, n % 256]
  }

  function Decode16(b: seq<Byte>): (n: nat)
    requires |b| == 2
    ensures n < 65536 && Encode16(n) == b
  {
    (b[0] as int) * 256 + b[1] as int
  }

  predicate ValidLabels(labels: seq<seq<Byte>>) { forall i :: 0 <= i < |labels| ==> 0 < |labels[i]| < 256 }

  predicate ValidParams(params: seq<Param>) { forall i :: 0 <= i < |params| ==> params[i].Valid() }

  function EncodeName(labels: seq<seq<Byte>>): seq<Byte>
    requires ValidLabels(labels)
  {
    if labels == [] then [0] else [|labels[0]| as Byte] + labels[0] + EncodeName(labels[1..])
  }

  function EncodeParam(p: Param): seq<Byte>
    requires p.Valid()
  {
    Encode16(p.key) + Encode16(|p.value|) + p.value
  }

  function EncodeParams(params: seq<Param>): seq<Byte>
    requires ValidParams(params)
  {
    if params == [] then [] else EncodeParam(params[0]) + EncodeParams(params[1..])
  }

  /** Record data as section 2.2 of RFC 9460 lays it out. */
  function Encode(priority: nat, labels: seq<seq<Byte>>, params: seq<Param>): seq<Byte>
    requires priority < 65536 && ValidLabels(labels) && ValidParams(params)
  {
    Encode16(priority) + EncodeName(labels) + EncodeParams(params)
  }

  /** The parts at their places, numbers with the high byte first. */
  lemma RecordLayout(priority: nat, labels: seq<seq<Byte>>, params: seq<Param>)
    requires priority < 65536 && ValidLabels(labels) && ValidParams(params)
    ensures var raw := Encode(priority, labels, params);
      && |raw| >= 2 && raw[0] as int * 256 + raw[1] as int == priority
      && raw[2..] == EncodeName(labels) + EncodeParams(params)
  {
    hide EncodeName, EncodeParams;
  }

  lemma NameLayout(labels: seq<seq<Byte>>)
    requires ValidLabels(labels)
    ensures labels == [] ==> EncodeName(labels) == [0]
    ensures labels != [] ==>
      var name, n := EncodeName(labels), |labels[0]|;
      |name| > n && name[0] as int == n && name[1..n + 1] == labels[0] && name[n + 1..] == EncodeName(labels[1..])
  {
  }

  lemma ParamLayout(p: Param)
    requires p.Valid()
    ensures var data := EncodeParam(p);
      && |data| == 4 + |p.value|
      && data[0] as int * 256 + data[1] as int == p.key && data[2] as int * 256 + data[3] as int == |p.value|
      && data[4..] == p.value
  {
  }

  lemma ParamsLayout(params: seq<Param>)
    requires ValidParams(params)
    ensures EncodeParams(params) == if params == [] then [] else EncodeParam(params[0]) + EncodeParams(params[1..])
  {
  }

  // ------------------------------------------------------------ the decoder

  datatype Name = Name(labels: seq<seq<Byte>>, used: nat)

  /** What reading the rest leads to, after `labels` have been read from `used` bytes. */
  function Named(labels: seq<seq<Byte>>, used: nat, rest: Result<Name>): Result<Name> {
    match rest
    case Err(fault) => Err(fault)
    case Ok(name) => Ok(Name(labels + name.labels, used + name.used))
  }

  function ReadName(data: seq<Byte>): (r: Result<Name>)
    ensures r.Ok? ==> r.value.used <= |data|
  {
    if data == [] then Err(NameCutOff)
    else
      var n := 1 + data[0] as nat;
      if n == 1 then Ok(Name([], 1))
      else if n > |data| then Err(LabelCutOff)
      else Named([data[1..n]], n, ReadName(data[n..]))
  }

  function Preceded(params: seq<Param>, rest: Result<seq<Param>>): Result<seq<Param>> {
    match rest
    case Err(fault) => Err(fault)
    case Ok(more) => Ok(params + more)
  }

  function ReadParams(data: seq<Byte>): Result<seq<Param>> {
    if |data| < 4 then Ok([])
    else
      var key, n := Decode16(data[..2]), 4 + Decode16(data[2..4]);
      if n > |data| then Err(ValueCutOff)
      else Preceded([Param(key, data[4..n])], ReadParams(data[n..]))
  }

  function KeyName(key: nat): string {
    if key == 5 then "ech" else if key == 1 then "alpn_hex" else "key" + Decimal(key)
  }

  function ShowValue(p: Param, base64: seq<Byte> -> string): string {
    if p.key == 5 then base64(p.value) else Hex(p.value)
  }

  /** The parameter table: of equal keys the last one counts. */
  function Collect(params: seq<Param>, base64: seq<Byte> -> string): map<string, string> {
    if params == [] then map[]
    else
      var n := |params| - 1;
      Collect(params[..n], base64)[KeyName(params[n].key) := ShowValue(params[n], base64)]
  }

  function EchOf(params: seq<Param>): Option<seq<Byte>> {
    if params == [] then None
    else
      var n := |params| - 1;
      if params[n].key == 5 then Some(params[n].value) else EchOf(params[..n])
  }

  function TargetOf(labels: seq<seq<Byte>>): seq<Byte> {
    if labels == [] then [DOT] else Join(labels, DOT)
  }

  function Show(priority: nat, labels: seq<seq<Byte>>, params: seq<Param>, base64: seq<Byte> -> string): HttpsRecord {
    HttpsRecord(priority, TargetOf(labels), Collect(params, base64), EchOf(params))
  }

  function DecodeRaw(raw: seq<Byte>, base64: seq<Byte> -> string): Result<HttpsRecord> {
    if |raw| < 2 then Err(TooShort)
    else
      match ReadName(raw[2..])
      case Err(fault) => Err(fault)
      case Ok(name) =>
        match ReadParams(raw[2 + name.used..])
        case Err(fault) => Err(fault)
        case Ok(params) => Ok(Show(Decode16(raw[..2]), name.labels, params, base64))
  }

  lemma NamedNothing(rest: Result<Name>)
    ensures Named([], 0, rest) == rest
  {
    if rest.Ok? { assert [] + rest.value.labels == rest.value.labels; }
  }

  lemma PrecededNothing(rest: Result<seq<Param>>)
    ensures Preceded([], rest) == rest
  {
    if rest.Ok? { assert [] + rest.value == rest.value; }
  }

  lemma NamedTwice(first: seq<seq<Byte>>, m: nat, second: seq<seq<Byte>>, n: nat, rest: Result<Name>)
    ensures Named(first, m, Named(second, n, rest)) == Named(first + second, m + n, rest)
  {
    if rest.Ok? {
      assert first + (second + rest.value.labels) == first + second + rest.value.labels;
    }
  }

  lemma PrecededTwice(first: seq<Param>, second: seq<Param>, rest: Result<seq<Param>>)
    ensures Preceded(first, Preceded(second, rest)) == Preceded(first + second, rest)
  {
    if rest.Ok? {
      assert first + (second + rest.value) == first + second + rest.value;
    }
  }

  lemma NameAt(data: seq<Byte>, offset: nat)
    requires offset <= |data|
    ensures ReadName(data[offset..]) ==
      if offset == |data| then Err(NameCutOff)
      else
        var first, n := offset + 1, data[offset] as nat;
        if n == 0 then Ok(Name([], 1))
        else if first + n > |data| then Err(LabelCutOff)
        else Named([data[first..first + n]], 1 + n, ReadName(data[first + n..]))
  {
    var rest := data[offset..];
    if offset < |data| && offset + 1 + data[offset] as nat <= |data| {
      var first, n := offset + 1, data[offset] as nat;
      assert rest[1..1 + n] == data[first..first + n] && rest[1 + n..] == data[first + n..];
    }
  }

  /** Reads the labels of a name one after the other. */
  method ParseDomainName(data: seq<Byte>) returns (r: Result<(seq<Byte>, nat)>)
    ensures r == match ReadName(data)
      case Err(fault) => Err(fault)
      case Ok(name) => Ok((TargetOf(name.labels), name.used))
  {
    hide ReadName, Join;
    var parts: seq<seq<Byte>> := [];
    var offset := 0;
    assert data[0..] == data;
    NamedNothing(ReadName(data));
    while true
      invariant 0 <= offset <= |data|
      invariant ReadName(data) == Named(parts, offset, ReadName(data[offset..]))
      decreases |data| - offset
    {
      NameAt(data, offset);
      if offset >= |data| {
        return Err(NameCutOff);
      }
      var n := data[offset] as nat;
      offset := offset + 1;
      if n == 0 {
        assert parts + [] == parts;
        return Ok((if parts == [] then [DOT] else Join(parts, DOT), offset));
      }
      if offset + n > |data| {
        return Err(LabelCutOff);
      }
      NamedTwice(parts, offset - 1, [data[offset..offset + n]], 1 + n, ReadName(data[offset + n..]));
      parts := parts + [data[offset..offset + n]];
      offset := offset + n;
    }
  }

  lemma ParamsAt(raw: seq<Byte>, offset: nat)
    requires offset <= |raw|
    ensures ReadParams(raw[offset..]) ==
      if offset + 4 > |raw| then Ok([])
      else
        var first, n := offset + 4, Decode16(raw[offset + 2..offset + 4]);
        if first + n > |raw| then Err(ValueCutOff)
        else
          Preceded([Param(Decode16(raw[offset..offset + 2]), raw[first..first + n])], ReadParams(raw[first + n..]))
  {
    var rest := raw[offset..];
    if offset + 4 <= |raw| {
      assert rest[..2] == raw[offset..offset + 2] && rest[2..4] == raw[offset + 2..offset + 4];
      var first, n := offset + 4, Decode16(raw[offset + 2..offset + 4]);
      if first + n <= |raw| {
        assert rest[4..4 + n] == raw[first..first + n] && rest[4 + n..] == raw[first + n..];
      }
    }
  }

  datatype ParamTable = ParamTable(params: map<string, string>, ech: Option<seq<Byte>>)

  function TableOf(params: seq<Param>, base64: seq<Byte> -> string): ParamTable {
    ParamTable(Collect(params, base64), EchOf(params))
  }

  lemma TableGrows(params: seq<Param>, p: Param, base64: seq<Byte> -> string)
    ensures Collect(params + [p], base64) == Collect(params, base64)[KeyName(p.key) := ShowValue(p, base64)]
    ensures EchOf(params + [p]) == if p.key == 5 then Some(p.value) else EchOf(params)
  {
    assert (params + [p])[..|params|] == params;
  }

  /** Reads the parameters into a table; what is left of fewer than four bytes is ignored. */
  method ParseParams(raw: seq<Byte>, start: nat, base64: seq<Byte> -> string) returns (r: Result<ParamTable>)
    requires start <= |raw|
    ensures r == match ReadParams(raw[start..])
      case Err(fault) => Err(fault)
      case Ok(params) => Ok(TableOf(params, base64))
  {
    hide ReadParams, Decode16, KeyName, ShowValue;
    var offset, params, ech := start, map[], None;
    ghost var seen: seq<Param> := [];
    PrecededNothing(ReadParams(raw[start..]));
    while offset < |raw|
      invariant start <= offset <= |raw|
      invariant params == Collect(seen, base64) && ech == EchOf(seen)
      invariant ReadParams(raw[start..]) == Preceded(seen, ReadParams(raw[offset..]))
    {
      ParamsAt(raw, offset);
      if offset + 4 > |raw| {
        break;
      }
      var key, valLen := Decode16(raw[offset..offset + 2]), Decode16(raw[offset + 2..offset + 4]);
      offset := offset + 4;
      if offset + valLen > |raw| {
        return Err(ValueCutOff);
      }
      var val := raw[offset..offset + valLen];
      offset := offset + valLen;
      PrecededTwice(seen, [Param(key, val)], ReadParams(raw[offset..]));
      TableGrows(seen, Param(key, val), base64);
      params, ech := AddParam(params, ech, Param(key, val), base64);
      seen := seen + [Param(key, val)];
    }
    ParamsAt(raw, offset);
    assert seen + [] == seen;
    r := Ok(ParamTable(params, ech));
  }

  method AddParam(params: map<string, string>, ech: Option<seq<Byte>>, p: Param, base64: seq<Byte> -> string)
      returns (params': map<string, string>, ech': Option<seq<Byte>>)
    ensures params' == params[KeyName(p.key) := ShowValue(p, base64)]
    ensures ech' == if p.key == 5 then Some(p.value) else ech
  {
    ech' := ech;
    match p.key {
      case 5 =>
        ech' := Some(p.value);
        params' := params["ech" := base64(p.value)];
      case 1 => params' := params["alpn_hex" := Hex(p.value)];
      case _ => params' := params["key" + Decimal(p.key) := Hex(p.value)];
    }
  }

  /** Decodes a record handed on in the generic notation. */
  method ParseHttpsRecordWire(text: string, base64: seq<Byte> -> string) returns (r: Result<HttpsRecord>)
    ensures r == match ReadRaw(text)
      case Err(fault) => Err(fault)
      case Ok(raw) => DecodeRaw(raw, base64)
  {
    var third := ThirdPart(text);
    if third.None? {
      return Err(InvalidFormat);
    }
    var decoded := FromHex(DropSpaces(third.value));
    if decoded.None? {
      return Err(BadHex);
    }
    var raw := decoded.value;
    if |raw| < 2 {
      return Err(TooShort);
    }
    var name := ParseDomainName(raw[2..]);
    if name.Err? {
      return Err(name.fault);
    }
    var table := ParseParams(raw, 2 + name.value.1, base64);
    if table.Err? {
      return Err(table.fault);
    }
    r := Ok(HttpsRecord(Decode16(raw[..2]), name.value.0, table.value.params, table.value.ech));
  }

  // ------------------------------------- the decoder inverts the encoding

  lemma NameEnds(rest: seq<Byte>)
    ensures ReadName([0] + rest) == Ok(Name([], 1))
  {
  }

  lemma LabelReadsBack(part: seq<Byte>, rest: seq<Byte>)
    requires 0 < |part| < 256
    ensures ReadName([|part| as Byte] + part + rest) == Named([part], 1 + |part|, ReadName(rest))
  {
    var data := [|part| as Byte] + part + rest;
    assert data[1..1 + |part|] == part && data[1 + |part|..] == rest;
  }

  lemma {:induction false} NameReadsBack(labels: seq<seq<Byte>>, rest: seq<Byte>)
    requires ValidLabels(labels)
    ensures ReadName(EncodeName(labels) + rest) == Ok(Name(labels, |EncodeName(labels)|))
  {
    hide ReadName;
    if labels == [] {
      NameEnds(rest);
    } else {
      var first, after := labels[0], EncodeName(labels[1..]);
      NameReadsBack(labels[1..], rest);
      LabelReadsBack(first, after + rest);
      assert EncodeName(labels) + rest == [|first| as Byte] + first + (after + rest);
      assert [first] + labels[1..] == labels;
    }
  }

  lemma {:induction false} NameIsEncoding(data: seq<Byte>)
    requires ReadName(data).Ok?
    ensures var name := ReadName(data).value;
      && ValidLabels(name.labels)
      && data[..name.used] == EncodeName(name.labels)
  {
    var n := 1 + data[0] as nat;
    if n > 1 {
      NameIsEncoding(data[n..]);
      var rest, name := ReadName(data[n..]).value, ReadName(data).value;
      assert name.labels[1..] == rest.labels;
      SliceAfter(data, n, rest.used);
    }
  }

  lemma SliceAfter(data: seq<Byte>, n: nat, m: nat)
    requires 1 <= n && n + m <= |data|
    ensures data[..n + m] == [data[0]] + data[1..n] + data[n..][..m]
  {
  }

  lemma ParamReadsBack(p: Param, rest: seq<Byte>)
    requires p.Valid()
    ensures ReadParams(EncodeParam(p) + rest) == Preceded([p], ReadParams(rest))
  {
    var data, n := EncodeParam(p) + rest, 4 + |p.value|;
    assert data[..2] == Encode16(p.key) && data[2..4] == Encode16(|p.value|);
    assert data[4..n] == p.value && data[n..] == rest;
  }

  lemma {:induction false} ParamsReadBack(params: seq<Param>, tail: seq<Byte>)
    requires ValidParams(params) && |tail| < 4
    ensures ReadParams(EncodeParams(params) + tail) == Ok(params)
  {
    hide EncodeParam;
    if params == [] {
      assert EncodeParams(params) + tail == tail;
    } else {
      hide ReadParams;
      var first, after := params[0], EncodeParams(params[1..]);
      ParamsReadBack(params[1..], tail);
      ParamReadsBack(first, after + tail);
      assert EncodeParams(params) + tail == EncodeParam(first) + (after + tail);
      assert [first] + params[1..] == params;
    }
  }

  lemma FirstParamIsEncoding(data: seq<Byte>)
    requires |data| >= 4 && 4 + Decode16(data[2..4]) <= |data|
    ensures var n := 4 + Decode16(data[2..4]);
      var p := Param(Decode16(data[..2]), data[4..n]);
      p.Valid() && EncodeParam(p) == data[..n]
  {
    var n := 4 + Decode16(data[2..4]);
    assert data[..n] == data[..2] + data[2..4] + data[4..n];
  }

  lemma {:induction false} ParamsAreEncoding(data: seq<Byte>) returns (tail: seq<Byte>)
    requires ReadParams(data).Ok?
    ensures ValidParams(ReadParams(data).value) && |tail| < 4
    ensures data == EncodeParams(ReadParams(data).value) + tail
  {
    hide EncodeParam, Encode16, Decode16;
    if |data| < 4 {
      tail := data;
      assert data == [] + tail;
    } else {
      var n := 4 + Decode16(data[2..4]);
      var p := Param(Decode16(data[..2]), data[4..n]);
      FirstParamIsEncoding(data);
      tail := ParamsAreEncoding(data[n..]);
      var rest := ReadParams(data[n..]).value;
      assert ReadParams(data).value == [p] + rest && ([p] + rest)[1..] == rest;
      assert EncodeParams([p] + rest) == data[..n] + EncodeParams(rest);
      assert data == data[..n] + data[n..];
    }
  }

  /** The bytes are an encoding of these parts, followed by fewer than four more. */
  ghost predicate Encodes(raw: seq<Byte>, priority: nat, labels: seq<seq<Byte>>, params: seq<Param>, tail: seq<Byte>) {
    && priority < 65536 && ValidLabels(labels) && ValidParams(params) && |tail| < 4
    && raw == Encode(priority, labels, params) + tail
  }

  lemma Read16Back(n: nat)
    requires n < 65536
    ensures Decode16(Encode16(n)) == n
  {
  }

  /** Round trip: whatever has been encoded is decoded to the record of its parts. */
  lemma DecodeInvertsEncode(
      raw: seq<Byte>, priority: nat, labels: seq<seq<Byte>>, params: seq<Param>, tail: seq<Byte>,
      base64: seq<Byte> -> string)
    requires Encodes(raw, priority, labels, params, tail)
    ensures DecodeRaw(raw, base64) == Ok(Show(priority, labels, params, base64))
  {
    hide EncodeName, EncodeParams, ReadName, ReadParams, Show, Encode16, Decode16;
    var name, after := EncodeName(labels), EncodeParams(params) + tail;
    assert raw == Encode16(priority) + (name + after);
    assert raw[..2] == Encode16(priority) && raw[2..] == name + after;
    Read16Back(priority);
    NameReadsBack(labels, after);
    assert raw[2 + |name|..] == after;
    ParamsReadBack(params, tail);
  }

  /** And whatever is decoded was an encoding: the decoder accepts nothing else. */
  lemma DecodedIsEncoding(raw: seq<Byte>, base64: seq<Byte> -> string)
      returns (priority: nat, labels: seq<seq<Byte>>, params: seq<Param>, tail: seq<Byte>)
    requires DecodeRaw(raw, base64).Ok?
    ensures Encodes(raw, priority, labels, params, tail)
    ensures DecodeRaw(raw, base64) == Ok(Show(priority, labels, params, base64))
  {
    hide EncodeName, EncodeParams, ReadName, ReadParams, Show, Encode16, Decode16;
    var name := ReadName(raw[2..]).value;
    var rest := raw[2 + name.used..];
    priority, labels, params := Decode16(raw[..2]), name.labels, ReadParams(rest).value;
    NameIsEncoding(raw[2..]);
    tail := ParamsAreEncoding(rest);
    assert raw == raw[..2] + raw[2..][..name.used] + rest;
  }

  /** What a fault in a name means: the data end after some labels, or within the next. */
  lemma {:induction false} NameFaultIs(data: seq<Byte>) returns (labels: seq<seq<Byte>>, n: Byte, part: seq<Byte>)
    requires ReadName(data).Err?
    ensures ValidLabels(labels) && EncodeName(labels) != []
    ensures var head := EncodeName(labels)[..|EncodeName(labels)| - 1];
      match ReadName(data).fault
      case NameCutOff => data == head
      case LabelCutOff => data == head + ([n] + part) && |part| < n as nat
      case _ => false
  {
    hide EncodeName;
    labels, n, part := [], 0, [];
    NameLayout([]);
    if data != [] {
      var used := 1 + data[0] as nat;
      if used > |data| {
        n, part := data[0], data[1..];
        assert data == [] + ([n] + part);
      } else {
        var rest;
        rest, n, part := NameFaultIs(data[used..]);
        labels := [data[1..used]] + rest;
        LastByteOff(data[0], data[1..used], rest);
        Regrouped(data, used, EncodeName(rest)[..|EncodeName(rest)| - 1], [n] + part);
      }
    }
  }

  lemma Regrouped(data: seq<Byte>, used: nat, head: seq<Byte>, tail: seq<Byte>)
    requires 1 <= used <= |data|
    ensures data[used..] == head ==> data == [data[0]] + data[1..used] + head
    ensures data[used..] == head + tail ==> data == [data[0]] + data[1..used] + head + tail
  {
    assert data == [data[0]] + data[1..used] + data[used..];
  }

  lemma LastByteOff(n: Byte, first: seq<Byte>, rest: seq<seq<Byte>>)
    requires n as nat == |first| > 0 && ValidLabels(rest) && EncodeName(rest) != []
    ensures var labels := [first] + rest;
      && ValidLabels(labels) && EncodeName(labels) == [n] + first + EncodeName(rest)
      && EncodeName(labels)[..|EncodeName(labels)| - 1] == [n] + first + EncodeName(rest)[..|EncodeName(rest)| - 1]
  {
    assert ([first] + rest)[1..] == rest;
  }

  /** What a fault in the parameters means: the data end within a value. */
  lemma {:induction false} ParamFaultIs(data: seq<Byte>) returns (params: seq<Param>, key: nat, n: nat, part: seq<Byte>)
    requires ReadParams(data).Err?
    ensures ReadParams(data).fault == ValueCutOff
    ensures ValidParams(params) && key < 65536 && n < 65536 && |part| < n
    ensures data == EncodeParams(params) + Encode16(key) + Encode16(n) + part
  {
    hide EncodeParam, Encode16, Decode16;
    key, n := Decode16(data[..2]), Decode16(data[2..4]);
    if 4 + n > |data| {
      params, part := [], data[4..];
      assert data == [] + data[..2] + data[2..4] + data[4..];
    } else {
      var first, used := Param(key, data[4..4 + n]), 4 + n;
      FirstParamIsEncoding(data);
      var rest;
      rest, key, n, part := ParamFaultIs(data[used..]);
      params := [first] + rest;
      assert params[1..] == rest;
      assert EncodeParams(params) == data[..used] + EncodeParams(rest);
      assert data == data[..used] + data[used..];
    }
  }

  // ------------------------------------------------ what the record tells

  lemma KeyNamesDiffer(a: nat, b: nat)
    requires a != b
    ensures KeyName(a) != KeyName(b)
  {
    DecimalReadsBack(a);
    DecimalReadsBack(b);
    if a !in {1, 5} && b !in {1, 5} {
      assert KeyName(a)[3..] == Decimal(a) && KeyName(b)[3..] == Decimal(b);
    } else if a !in {1, 5} {
      assert KeyName(a)[0] == 'k';
    } else if b !in {1, 5} {
      assert KeyName(b)[0] == 'k';
    }
  }

  ghost predicate DistinctKeys(params: seq<Param>) {
    forall i, j :: 0 <= i < j < |params| ==> params[i].key != params[j].key
  }

  /** The table holds the parameter, under its own name. */
  ghost predicate Listed(table: map<string, string>, p: Param, base64: seq<Byte> -> string) {
    KeyName(p.key) in table && table[KeyName(p.key)] == ShowValue(p, base64)
  }

  lemma OneMoreName(params: seq<Param>)
    requires params != []
    ensures var n := |params| - 1;
      (set i | 0 <= i < |params| :: KeyName(params[i].key)) ==
      (set i | 0 <= i < |params[..n]| :: KeyName(params[..n][i].key)) + {KeyName(params[n].key)}
  {
    hide KeyName;
    var n := |params| - 1;
    forall i | 0 <= i < n
      ensures KeyName(params[i].key) in (set i | 0 <= i < |params[..n]| :: KeyName(params[..n][i].key)) {
      assert params[..n][i] == params[i];
    }
  }

  /** With distinct keys the table holds every parameter under its own name, and nothing
      else. */
  lemma {:induction false} TableIsExact(params: seq<Param>, base64: seq<Byte> -> string)
    requires DistinctKeys(params)
    ensures var table := Collect(params, base64);
      && table.Keys == (set i | 0 <= i < |params| :: KeyName(params[i].key))
      && forall i :: 0 <= i < |params| ==> Listed(table, params[i], base64)
  {
    hide KeyName, ShowValue;
    if params != [] {
      var n := |params| - 1;
      TableIsExact(params[..n], base64);
      OneMoreName(params);
      forall i | 0 <= i < n ensures Listed(Collect(params, base64), params[i], base64) {
        KeyNamesDiffer(params[i].key, params[n].key);
        assert Listed(Collect(params[..n], base64), params[..n][i], base64);
      }
    }
  }

  /** Key 5 is shown as "ech" in base64, key 1 as "alpn_hex", and any other by its number; all
      but key 5 in hexadecimal. */
  lemma KeysAreShown(params: seq<Param>, base64: seq<Byte> -> string, i: nat)
    requires DistinctKeys(params) && i < |params|
    ensures var table, p := Collect(params, base64), params[i];
      && (p.key == 5 ==> "ech" in table && table["ech"] == base64(p.value))
      && (p.key == 1 ==> "alpn_hex" in table && table["alpn_hex"] == Hex(p.value))
      && (p.key !in {1, 5} ==> "key" + Decimal(p.key) in table && table["key" + Decimal(p.key)] == Hex(p.value))
  {
    TableIsExact(params, base64);
    assert Listed(Collect(params, base64), params[i], base64);
  }

  /** And the table has as many entries as there are parameters. */
  lemma {:induction false} TableSize(params: seq<Param>, base64: seq<Byte> -> string)
    requires DistinctKeys(params)
    ensures |Collect(params, base64)| == |params|
  {
    hide KeyName, ShowValue;
    if params != [] {
      var n := |params| - 1;
      TableSize(params[..n], base64);
      TableIsExact(params[..n], base64);
      forall i | 0 <= i < n ensures KeyName(params[i].key) != KeyName(params[n].key) {
        KeyNamesDiffer(params[i].key, params[n].key);
      }
    }
  }

  /** The ECH configuration is the value of the last parameter with key 5. */
  lemma {:induction false} EchIsLastKey5(params: seq<Param>, i: nat)
    requires i < |params| && params[i].key == 5
    requires forall j :: i < j < |params| ==> params[j].key != 5
    ensures EchOf(params) == Some(params[i].value)
  {
    if i < |params| - 1 {
      EchIsLastKey5(params[..|params| - 1], i);
    }
  }

  lemma {:induction false} NoKey5NoEch(params: seq<Param>)
    requires forall j :: 0 <= j < |params| ==> params[j].key != 5
    ensures EchOf(params) == None
  {
    if params != [] { NoKey5NoEch(params[..|params| - 1]); }
  }

  /** Labels without dots can be told from the target. */
  lemma TargetTellsLabels(labels: seq<seq<Byte>>)
    requires ValidLabels(labels) && forall i :: 0 <= i < |labels| ==> DOT !in labels[i]
    ensures labels != [] ==> Split(TargetOf(labels), 46) == labels
    ensures labels == [] <==> TargetOf(labels) == [46]
  {
    if labels != [] {
      SplitJoin(labels, DOT);
      assert Split([DOT], DOT)[0] == [];
    }
  }
}
