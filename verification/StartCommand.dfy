/** The start command: printed by the app, split and checked by the helper, narrowed by the engine. */
module StartCommand {
  import opened Bytes
  import opened Text
  import opened Decimal
  import opened Wrappers

  // ----- The app -----

  /** Swift's Int. */
  type SwiftInt = n: int | -0x8000_0000_0000_0000 <= n <= 0x7FFF_FFFF_FFFF_FFFF

  datatype Settings = Settings(fakeTtl: SwiftInt, dohEnabled: bool, dohUpstream: string, iface: string, ports: string)

  const FAKE_TTL := "--fake-ttl="
  const DOH := "--doh="
  const UPSTREAM := "--doh-upstream="
  const IFACE := "--interface="
  const PORTS := "--ports="

  function EffectiveTtl(settings: Settings): nat {
    if settings.fakeTtl < 1 then 1 else settings.fakeTtl
  }

  function Optional(flag: string, value: string): seq<string> {
    if value != "" then [flag + value] else []
  }

  function FixedArguments(settings: Settings): seq<string> {
    [FAKE_TTL + Digits(EffectiveTtl(settings)), DOH + if settings.dohEnabled then "true" else "false"]
  }

  /** The arguments a start is meant to have. */
  function Arguments(settings: Settings): seq<string> {
    FixedArguments(settings)
    + Optional(UPSTREAM, TrimSpace(settings.dohUpstream))
    + Optional(IFACE, TrimSpace(settings.iface))
    + Optional(PORTS, TrimSpace(settings.ports))
  }

  /** One `if !value.isEmpty { parts.append(...) }`. */
  method AppendOptional(parts: seq<string>, ghost args: seq<string>, flag: string, value: string)
    returns (more: seq<string>)
    requires parts == ["start"] + args
    ensures more == ["start"] + (args + Optional(flag, value))
  {
    more := parts;
    if value != "" {
      more := more + [flag + value];
    }
  }

  method BuildStartCommand(settings: Settings) returns (command: string)
    ensures command == Join(["start"] + Arguments(settings), " ")
  {
    var ttl := if settings.fakeTtl < 1 then 1 else settings.fakeTtl;
    var doh := if settings.dohEnabled then "true" else "false";
    var upstream := TrimSpace(settings.dohUpstream);
    var iface := TrimSpace(settings.iface);
    var ports := TrimSpace(settings.ports);

    var parts := ["start", FAKE_TTL + Digits(ttl), DOH + doh];
    ghost var args := FixedArguments(settings);
    assert parts == ["start"] + args;
    parts := AppendOptional(parts, args, UPSTREAM, upstream);
    parts := AppendOptional(parts, args + Optional(UPSTREAM, upstream), IFACE, iface);
    parts := AppendOptional(parts, args + Optional(UPSTREAM, upstream) + Optional(IFACE, iface), PORTS, ports);
    command := Join(parts, " ");
  }

  // ----- The helper: splitting -----

  predicate IsBlank(c: char) { c == ' ' || c == '\t' || c == '\n' }

  /** tr -d for carriage returns and newlines. */
  function StripNewlines(s: string): string {
    if s == "" then ""
    else if s[0] == '\r' || s[0] == '\n' then StripNewlines(s[1..])
    else [s[0]] + StripNewlines(s[1..])
  }

  function WordLen(s: string): (n: nat)
    ensures n <= |s|
    ensures s != "" && !IsBlank(s[0]) ==> n > 0
  {
    if s == "" || IsBlank(s[0]) then 0 else 1 + WordLen(s[1..])
  }

  /** read -r -a: the maximal runs of characters that are not blank. */
  function Fields(s: string): seq<string>
    decreases |s|
  {
    if s == "" then []
    else if IsBlank(s[0]) then Fields(s[1..])
    else [s[..WordLen(s)]] + Fields(s[WordLen(s)..])
  }

  /** A word on its own: nothing in it is taken for a separator or removed. */
  predicate Word(s: string) {
    s != "" && forall c :: c in s ==> !IsBlank(c) && c != '\r'
  }

  lemma {:induction false} WordLenAcross(a: string, rest: string)
    requires rest == "" || IsBlank(rest[0])
    ensures WordLen(a + rest) == WordLen(a)
  {
    if a == "" {
      assert a + rest == rest;
    } else if !IsBlank(a[0]) {
      assert (a + rest)[1..] == a[1..] + rest;
      WordLenAcross(a[1..], rest);
    }
  }

  lemma {:induction false} WordLenBehind(w: string, s: string)
    requires forall c :: c in w ==> !IsBlank(c)
    ensures WordLen(w + s) == |w| + WordLen(s)
  {
    if w == "" {
      assert w + s == s;
    } else {
      assert w[0] in w && (w + s)[1..] == w[1..] + s;
      WordLenBehind(w[1..], s);
    }
  }

  /** The words on both sides of a blank, of any kind, are split independently. */
  lemma {:induction false} FieldsAcrossBlank(a: string, blank: char, b: string)
    requires IsBlank(blank)
    ensures Fields(a + [blank] + b) == Fields(a) + Fields(b)
    decreases |a|
  {
    var s, rest := a + [blank] + b, [blank] + b;
    assert s == a + rest;
    if a == "" {
      assert s[1..] == b;
    } else if IsBlank(a[0]) {
      assert s[1..] == a[1..] + [blank] + b;
      FieldsAcrossBlank(a[1..], blank, b);
    } else {
      var n := WordLen(a);
      WordLenAcross(a, rest);
      assert s[..n] == a[..n] && s[n..] == a[n..] + [blank] + b;
      FieldsAcrossBlank(a[n..], blank, b);
    }
  }

  lemma FieldsOfWord(w: string)
    requires Word(w)
    ensures Fields(w) == [w]
  {
    WordLenBehind(w, "");
    assert w + "" == w && w[0] in w;
    assert w[|w|..] == "";
  }

  lemma {:induction false} WordLenBound(s: string)
    ensures forall i :: 0 <= i < WordLen(s) ==> !IsBlank(s[i])
  {
    if s != "" && !IsBlank(s[0]) {
      WordLenBound(s[1..]);
    }
  }

  /** What splitting yields are words. */
  lemma {:induction false} FieldsAreWords(s: string)
    requires '\r' !in s
    ensures forall w :: w in Fields(s) ==> Word(w)
    decreases |s|
  {
    if s != "" {
      if IsBlank(s[0]) {
        FieldsAreWords(s[1..]);
      } else {
        WordLenBound(s);
        FieldsAreWords(s[WordLen(s)..]);
      }
    }
  }

  lemma {:induction false} StripConcat(a: string, b: string)
    ensures StripNewlines(a + b) == StripNewlines(a) + StripNewlines(b)
  {
    if a == "" {
      assert a + b == b;
    } else {
      assert (a + b)[1..] == a[1..] + b;
      StripConcat(a[1..], b);
    }
  }

  lemma {:induction false} StripStrips(s: string)
    ensures '\r' !in StripNewlines(s) && '\n' !in StripNewlines(s)
    ensures '\r' !in s && '\n' !in s ==> StripNewlines(s) == s
  {
    if s != "" {
      assert s[0] in s;
      StripStrips(s[1..]);
      assert [s[0]] + s[1..] == s;
    }
  }

  lemma StripWord(w: string)
    requires Word(w)
    ensures StripNewlines(w) == w
  {
    StripStrips(w);
    assert IsBlank('\n');
  }

  /** The words of several texts, one text after the other. */
  function FieldsOfAll(texts: seq<string>): seq<string> {
    if texts == [] then [] else Fields(StripNewlines(texts[0])) + FieldsOfAll(texts[1..])
  }

  /** Texts joined by blanks come apart into their own words, in order. */
  lemma {:induction false} FieldsOfJoined(texts: seq<string>)
    ensures Fields(StripNewlines(Join(texts, " "))) == FieldsOfAll(texts)
  {
    if |texts| == 1 {
      assert texts[1..] == [];
      assert Fields(StripNewlines(texts[0])) + [] == Fields(StripNewlines(texts[0]));
    } else if |texts| > 1 {
      var rest := Join(texts[1..], " ");
      StripConcat(texts[0] + " ", rest);
      StripConcat(texts[0], " ");
      StripStrips(" ");
      FieldsAcrossBlank(StripNewlines(texts[0]), ' ', StripNewlines(rest));
      assert " " == [' '];
      FieldsOfJoined(texts[1..]);
    }
  }

  lemma {:induction false} FieldsOfAllConcat(a: seq<string>, b: seq<string>)
    ensures FieldsOfAll(a + b) == FieldsOfAll(a) + FieldsOfAll(b)
  {
    if a == [] {
      assert a + b == b;
    } else {
      assert (a + b)[1..] == a[1..] + b;
      FieldsOfAllConcat(a[1..], b);
    }
  }

  lemma {:induction false} FieldsOfWords(words: seq<string>)
    requires forall w :: w in words ==> Word(w)
    ensures FieldsOfAll(words) == words
  {
    if words != [] {
      assert words[0] in words && forall w :: w in words[1..] ==> w in words;
      StripWord(words[0]);
      FieldsOfWord(words[0]);
      FieldsOfWords(words[1..]);
    }
  }

  // ----- The helper: the allowlist -----

  const BASH_MAX := 0x7FFF_FFFF_FFFF_FFFF

  /** [ value -gt n ]: a number too large for bash makes the test fail with an error, which counts as false. */
  predicate BashGreater(value: string, n: nat)
    requires AllDigits(value)
  {
    Value(value) <= BASH_MAX && Value(value) > n
  }

  predicate FakeTtlOk(value: string) {
    value != "" && value[0] != '0' && AllDigits(value) && !BashGreater(value, 255)
  }

  predicate UpstreamOk(value: string) {
    value == "cloudflare" || value == "google" || value == "quad9" || value == "nextdns" || value == "adguard"
  }

  predicate IfaceOk(value: string) {
    value != "" && (forall c :: c in value ==> 'a' <= c <= 'z' || IsDigit(c)) && |value| <= 16
  }

  predicate PortOk(port: string)
    requires AllDigits(port)
  {
    !(port != "" && port[0] == '0') && |port| <= 5 && !BashGreater(port, 65535)
  }

  predicate DigitsAndCommas(value: string) {
    forall c :: c in value ==> IsDigit(c) || c == ','
  }

  lemma {:induction false} SplitDigits(value: string)
    requires DigitsAndCommas(value)
    ensures forall p :: p in Split(value, ',') ==> AllDigits(p)
  {
    if value != "" {
      assert value[0] in value;
      SplitDigits(value[1..]);
      var rest := Split(value[1..], ',');
      assert rest[0] in rest;
      forall p | p in Split(value, ',')
        ensures AllDigits(p)
      {
        if value[0] != ',' && p !in rest {
          assert p == [value[0]] + rest[0];
        }
      }
    }
  }

  /** No comma at either end and no two in a row: splitting at commas leaves no empty word. */
  predicate CommasApart(value: string) {
    value != "" && value[0] != ',' && value[|value| - 1] != ','
    && forall i :: 0 <= i < |value| - 1 ==> !(value[i] == ',' && value[i + 1] == ',')
  }

  predicate PortsOk(value: string) {
    value != "" && DigitsAndCommas(value) && CommasApart(value)
    && (SplitDigits(value); forall p :: p in Split(value, ',') ==> PortOk(p))
  }

  predicate TokenOk(token: string) {
    if HasPrefix(token, FAKE_TTL) then FakeTtlOk(token[|FAKE_TTL|..])
    else if HasPrefix(token, DOH) then token[|DOH|..] == "true" || token[|DOH|..] == "false"
    else if HasPrefix(token, UPSTREAM) then UpstreamOk(token[|UPSTREAM|..])
    else if HasPrefix(token, IFACE) then IfaceOk(token[|IFACE|..])
    else if HasPrefix(token, PORTS) then PortsOk(token[|PORTS|..])
    else false
  }

  predicate AllAllowed(tokens: seq<string>) {
    forall t :: t in tokens ==> TokenOk(t)
  }

  /** The tokens in front of the first one that is not allowed. */
  function SafePrefix(tokens: seq<string>): (r: seq<string>)
    ensures r <= tokens
    ensures r == tokens <==> AllAllowed(tokens)
  {
    if tokens == [] || !TokenOk(tokens[0]) then []
    else
      assert tokens == [tokens[0]] + tokens[1..];
      [tokens[0]] + SafePrefix(tokens[1..])
  }

  // ----- What the allowlist accepts, as numbers -----

  /** The digits of the numbers, separated by commas. */
  function PortText(ports: seq<nat>): string {
    Join(DigitsOf(ports), ",")
  }

  function DigitsOf(ports: seq<nat>): (r: seq<string>)
    ensures |r| == |ports| && forall i :: 0 <= i < |ports| ==> r[i] == Digits(ports[i])
  {
    seq(|ports|, i requires 0 <= i < |ports| => Digits(ports[i]))
  }

  lemma FakeTtlAccepted(value: string)
    ensures FakeTtlOk(value) <==> exists n: nat :: n > 0 && value == Digits(n) && (n <= 255 || n > BASH_MAX)
  {
    if FakeTtlOk(value) {
      DigitsOfValue(value);
    }
    forall n: nat | n > 0 && value == Digits(n) && (n <= 255 || n > BASH_MAX)
      ensures FakeTtlOk(value)
    {
      ValueOfDigits(n);
    }
  }

  lemma PortAccepted(p: string)
    requires AllDigits(p)
    ensures p != "" && PortOk(p) <==> Canonical(p) && Value(p) <= 65535
  {
    if Canonical(p) {
      DigitsOfValue(p);
      FiveDigits(Value(p));
    }
  }

  lemma CommasApartTail(value: string, k: nat)
    requires CommasApart(value) && k < |value| && value[k] != ','
    ensures CommasApart(value[k..])
  {
    var tail := value[k..];
    forall i | 0 <= i < |tail| - 1
      ensures !(tail[i] == ',' && tail[i + 1] == ',')
    {
      assert tail[i] == value[i + k] && tail[i + 1] == value[i + k + 1];
    }
  }

  lemma {:induction false} SplitNonEmpty(value: string)
    requires CommasApart(value)
    ensures forall p :: p in Split(value, ',') ==> p != ""
    decreases |value|
  {
    var tail := value[1..];
    if tail == "" {
      SplitWhole(value);
    } else if tail[0] == ',' {
      assert value[0 + 1] == ',' && value[1] != value[|value| - 1];
      assert !(value[1] == ',' && value[1 + 1] == ',');
      CommasApartTail(value, 2);
      SplitNonEmpty(value[2..]);
      assert tail[1..] == value[2..];
      assert Split(value, ',') == [[value[0]] + ""] + Split(value[2..], ',');
    } else {
      CommasApartTail(value, 1);
      SplitNonEmpty(tail);
      var rest := Split(tail, ',');
      forall p | p in Split(value, ',')
        ensures p != ""
      {
        if p !in rest {
          assert p == [value[0]] + rest[0];
        }
      }
    }
  }

  lemma {:induction false} SplitJoin(parts: seq<string>)
    requires parts != [] && Free(parts, ',')
    ensures Split(Join(parts, ","), ',') == parts
  {
    assert parts[0] in parts;
    if |parts| == 1 {
      SplitWhole(parts[0]);
    } else {
      assert Join(parts, ",") == parts[0] + [','] + Join(parts[1..], ",");
      SplitFirst(parts[0], Join(parts[1..], ","), ',');
      SplitJoin(parts[1..]);
    }
  }

  lemma {:induction false} SplitWhole(s: string)
    requires ',' !in s
    ensures Split(s, ',') == [s]
  {
    if s != "" {
      assert s[0] in s;
      SplitWhole(s[1..]);
      assert [s[0]] + s[1..] == s;
    }
  }

  // ----- The engine: reading the numbers -----

  /** The int slice the engine's flag parser reads from a list of decimal numbers. */
  function ParseInts(value: string): (r: seq<nat>)
    requires DigitsAndCommas(value)
    ensures |r| == |Split(value, ',')|
  {
    SplitDigits(value);
    var parts := Split(value, ',');
    seq(|parts|, i requires 0 <= i < |parts| => (assert parts[i] in parts; Value(parts[i])))
  }

  /** Fills an output slice, narrowing every element to 16 bits. */
  method ToUint16Slice(ints: seq<int>) returns (out: array<u16>)
    ensures fresh(out) && out.Length == |ints|
    ensures forall i :: 0 <= i < |ints| ==> out[i] == ToU16(ints[i])
  {
    out := new u16[|ints|](_ => 0);
    var i := 0;
    while i < |ints|
      invariant 0 <= i <= |ints|
      invariant forall j :: 0 <= j < i ==> out[j] == ToU16(ints[j])
    {
      out[i] := ToU16(ints[i]);
      i := i + 1;
    }
  }

  /** Accepted port lists are exactly the comma-separated decimal numbers from 1 to 65535. */
  lemma PortsAccepted(value: string)
    ensures PortsOk(value)
            <==> exists ports: seq<nat> ::
                   ports != [] && value == PortText(ports) && forall p :: p in ports ==> 1 <= p <= 65535
  {
    if PortsOk(value) {
      AcceptedPorts(value);
      var ports := ParseInts(value);
      assert value == PortText(ports);
    }
    forall ports: seq<nat> | ports != [] && value == PortText(ports) && forall p :: p in ports ==> 1 <= p <= 65535
      ensures PortsOk(value)
    {
      PortTextAccepted(ports);
    }
  }

  /** The numbers read from an accepted list print back to it and survive the narrowing to 16 bits. */
  lemma AcceptedPorts(value: string)
    requires PortsOk(value)
    ensures var ports := ParseInts(value);
            && ports != [] && PortText(ports) == value
            && forall p :: p in ports ==> 1 <= p <= 65535 && ToU16(p) == p
  {
    var parts, ports := Split(value, ','), ParseInts(value);
    SplitDigits(value);
    SplitNonEmpty(value);
    forall i | 0 <= i < |parts|
      ensures 1 <= ports[i] <= 65535 && Digits(ports[i]) == parts[i]
    {
      assert parts[i] in parts;
      PortAccepted(parts[i]);
      DigitsOfValue(parts[i]);
    }
    assert DigitsOf(ports) == parts;
    JoinUndoesSplit(value, ',');
    assert [','] == ",";
  }

  lemma PortTextAccepted(ports: seq<nat>)
    requires ports != [] && forall p :: p in ports ==> 1 <= p <= 65535
    ensures PortsOk(PortText(ports)) && ParseInts(PortText(ports)) == ports
  {
    var parts, value := DigitsOf(ports), PortText(ports);
    forall p | p in parts
      ensures Canonical(p) && PortOk(p)
    {
      var i :| 0 <= i < |parts| && parts[i] == p;
      assert ports[i] in ports;
      ValueOfDigits(ports[i]);
      PortAccepted(p);
    }
    assert Free(parts, ',') by {
      forall p | p in parts
        ensures ',' !in p
      {
        assert !IsDigit(',');
      }
    }
    SplitJoin(parts);
    JoinShape(parts);
    SplitDigits(value);
    forall i | 0 <= i < |ports|
      ensures Value(parts[i]) == ports[i]
    {
      ValueOfDigits(ports[i]);
    }
  }

  lemma {:induction false} JoinShape(parts: seq<string>)
    requires parts != [] && forall p :: p in parts ==> p != "" && AllDigits(p)
    ensures DigitsAndCommas(Join(parts, ",")) && CommasApart(Join(parts, ","))
  {
    var p, value := parts[0], Join(parts, ",");
    assert p in parts && p[0] in p && p[|p| - 1] in p && !IsDigit(',');
    if |parts| == 1 {
      forall i | 0 <= i < |value| - 1
        ensures value[i] != ','
      {
        assert value[i] in p;
      }
    } else {
      var rest := Join(parts[1..], ",");
      assert forall q :: q in parts[1..] ==> q in parts;
      JoinShape(parts[1..]);
      assert value == p + "," + rest;
      forall i | 0 <= i < |value| - 1
        ensures !(value[i] == ',' && value[i + 1] == ',')
      {
        if i < |p| {
          assert value[i] == p[i] && p[i] in p;
        } else if i > |p| {
          var j := i - |p| - 1;
          assert value[i] == rest[j] && value[i + 1] == rest[j + 1];
        }
      }
    }
  }

  // ----- Main results -----

  /** Each field, once trimmed, is empty or what the allowlist takes, and the TTL is at most 255. */
  predicate Acceptable(settings: Settings) {
    var upstream, iface, ports := TrimSpace(settings.dohUpstream), TrimSpace(settings.iface), TrimSpace(settings.ports);
    && settings.fakeTtl <= 255
    && (upstream == "" || UpstreamOk(upstream)) && (iface == "" || IfaceOk(iface)) && (ports == "" || PortsOk(ports))
  }

  predicate EmptyOrWord(value: string) { value == "" || Word(value) }

  /** The trimmed fields hold no white space of their own. */
  predicate Unspaced(settings: Settings) {
    EmptyOrWord(TrimSpace(settings.dohUpstream)) && EmptyOrWord(TrimSpace(settings.iface))
    && EmptyOrWord(TrimSpace(settings.ports))
  }

  lemma FakeTtlToken(value: string)
    ensures TokenOk(FAKE_TTL + value) <==> FakeTtlOk(value)
  {
    var token := FAKE_TTL + value;
    assert token[|FAKE_TTL|..] == value;
  }

  lemma DohToken(value: string)
    ensures TokenOk(DOH + value) <==> value == "true" || value == "false"
  {
    var token := DOH + value;
    assert token[|DOH|..] == value && token[2] == 'd' && FAKE_TTL[2] == 'f';
  }

  lemma UpstreamToken(value: string)
    ensures TokenOk(UPSTREAM + value) <==> UpstreamOk(value)
  {
    var token := UPSTREAM + value;
    assert token[|UPSTREAM|..] == value && token[2] == 'd' && FAKE_TTL[2] == 'f' && token[5] == '-' && DOH[5] == '=';
  }

  lemma IfaceToken(value: string)
    ensures TokenOk(IFACE + value) <==> IfaceOk(value)
  {
    var token := IFACE + value;
    assert token[|IFACE|..] == value && token[2] == 'i' && FAKE_TTL[2] == 'f' && DOH[2] == 'd' && UPSTREAM[2] == 'd';
  }

  lemma PortsToken(value: string)
    ensures TokenOk(PORTS + value) <==> PortsOk(value)
  {
    var token := PORTS + value;
    assert token[|PORTS|..] == value && token[2] == 'p';
    assert FAKE_TTL[2] == 'f' && DOH[2] == 'd' && UPSTREAM[2] == 'd' && IFACE[2] == 'i';
  }

  lemma TtlAccepted(settings: Settings)
    ensures TokenOk(FAKE_TTL + Digits(EffectiveTtl(settings))) <==> settings.fakeTtl <= 255
  {
    FakeTtlToken(Digits(EffectiveTtl(settings)));
    ValueOfDigits(EffectiveTtl(settings));
  }

  lemma FlagWord(flag: string, value: string)
    requires Word(flag) && Word(value)
    ensures Word(flag + value)
  {
  }

  lemma DigitsWord(n: nat)
    ensures Word(Digits(n))
  {
    ValueOfDigits(n);
  }

  lemma FixedArgumentsAreWords(settings: Settings)
    ensures forall w :: w in FixedArguments(settings) ==> Word(w)
  {
    DigitsWord(EffectiveTtl(settings));
    FlagWord(FAKE_TTL, Digits(EffectiveTtl(settings)));
    FlagWord(DOH, if settings.dohEnabled then "true" else "false");
  }

  lemma OptionalOk(flag: string, value: string)
    ensures AllAllowed(Optional(flag, value)) <==> value == "" || TokenOk(flag + value)
  {
    if value != "" {
      assert Optional(flag, value)[0] == flag + value;
    }
  }

  lemma AllConcat(a: seq<string>, b: seq<string>)
    ensures AllAllowed(a + b) <==> AllAllowed(a) && AllAllowed(b)
  {
    assert forall t :: t in a + b <==> t in a || t in b;
  }

  lemma FixedArgumentsOk(settings: Settings)
    ensures AllAllowed(FixedArguments(settings)) <==> settings.fakeTtl <= 255
  {
    TtlAccepted(settings);
    DohToken(if settings.dohEnabled then "true" else "false");
    assert FixedArguments(settings)[0] in FixedArguments(settings);
  }

  lemma ArgumentsOk(settings: Settings)
    ensures AllAllowed(Arguments(settings)) <==> Acceptable(settings)
  {
    var upstream, iface, ports := TrimSpace(settings.dohUpstream), TrimSpace(settings.iface), TrimSpace(settings.ports);
    FixedArgumentsOk(settings);
    OptionalOk(UPSTREAM, upstream);
    OptionalOk(IFACE, iface);
    OptionalOk(PORTS, ports);
    UpstreamToken(upstream);
    IfaceToken(iface);
    PortsToken(ports);
    var fixed := FixedArguments(settings);
    AllConcat(fixed + Optional(UPSTREAM, upstream) + Optional(IFACE, iface), Optional(PORTS, ports));
    AllConcat(fixed + Optional(UPSTREAM, upstream), Optional(IFACE, iface));
    AllConcat(fixed, Optional(UPSTREAM, upstream));
  }

  // What the helper sees of settings with any text in their fields.

  /** The words of an optional argument. */
  function Words(flag: string, value: string): seq<string> {
    if value == "" then [] else Fields(flag + StripNewlines(value))
  }

  /** The arguments that reach the helper. */
  function Sent(settings: Settings): seq<string> {
    FixedArguments(settings)
    + Words(UPSTREAM, TrimSpace(settings.dohUpstream))
    + Words(IFACE, TrimSpace(settings.iface))
    + Words(PORTS, TrimSpace(settings.ports))
  }

  /** A field is let through when its first word is in the grammar of the field and all its further words are
      allowed arguments by themselves. */
  predicate FieldAccepted(ok: string -> bool, value: string) {
    value == "" || (var words := Fields(StripNewlines(value)); words != [] && ok(words[0]) && AllAllowed(words[1..]))
  }

  predicate Accepted(settings: Settings) {
    && settings.fakeTtl <= 255
    && FieldAccepted(UpstreamOk, TrimSpace(settings.dohUpstream))
    && FieldAccepted(IfaceOk, TrimSpace(settings.iface))
    && FieldAccepted(PortsOk, TrimSpace(settings.ports))
  }

  /** The first word of a trimmed field is the flag's own, the others stand alone. */
  lemma WordsOfField(flag: string, value: string)
    requires Word(flag) && value != "" && Trimmed(value)
    ensures var words := Fields(StripNewlines(value));
            words != [] && Words(flag, value) == [flag + words[0]] + words[1..]
  {
    var u := StripNewlines(value);
    assert u[0] == value[0] && !IsBlank(u[0]);
    WordLenBehind(flag, u);
    var n, s := WordLen(u), flag + u;
    assert flag[0] in flag && s[0] == flag[0];
    assert s[..|flag| + n] == flag + u[..n] && s[|flag| + n..] == u[n..];
  }

  lemma WordsOfOptional(flag: string, value: string)
    requires Word(flag)
    ensures FieldsOfAll(Optional(flag, value)) == Words(flag, value)
  {
    if value != "" {
      StripConcat(flag, value);
      StripWord(flag);
      assert FieldsOfAll([flag + value]) == Fields(StripNewlines(flag + value)) + FieldsOfAll([flag + value][1..]);
      assert [flag + value][1..] == [];
    }
  }

  /** The words are the argument itself exactly when its value holds no white space. */
  lemma WordsExact(flag: string, value: string)
    requires Word(flag)
    ensures EmptyOrWord(value) ==> Words(flag, value) == Optional(flag, value)
    ensures forall w :: w in Words(flag, value) ==> Word(w)
    ensures (forall w :: w in Optional(flag, value) ==> Word(w)) ==> EmptyOrWord(value)
  {
    if value != "" {
      StripStrips(value);
      FieldsAreWords(flag + StripNewlines(value));
      if Word(value) {
        StripWord(value);
        FlagWord(flag, value);
        FieldsOfWord(flag + value);
      }
      assert Optional(flag, value)[0] == flag + value;
      forall c | c in value
        ensures c in flag + value
      {
        var i :| 0 <= i < |value| && value[i] == c;
        assert (flag + value)[|flag| + i] == c;
      }
      assert Word(flag + value) ==> Word(value);
    }
  }

  lemma FlagsAreWords()
    ensures Word(UPSTREAM) && Word(IFACE) && Word(PORTS) && Word("start")
  {
  }

  /** The command, written with its closing newline, as the helper splits it. */
  lemma CommandSplits(settings: Settings)
    ensures Fields(StripNewlines(Join(["start"] + Arguments(settings), " ") + "\n")) == ["start"] + Sent(settings)
  {
    var upstream, iface, ports := TrimSpace(settings.dohUpstream), TrimSpace(settings.iface), TrimSpace(settings.ports);
    var fixed, start := FixedArguments(settings), ["start"];
    FlagsAreWords();
    FieldsOfJoined(start + Arguments(settings));
    StripConcat(Join(start + Arguments(settings), " "), "\n");
    StripNewline();
    FieldsOfAllConcat(start, Arguments(settings));
    FieldsOfWords(start);
    FixedArgumentsAreWords(settings);
    FieldsOfWords(fixed);
    WordsOfOptional(UPSTREAM, upstream);
    WordsOfOptional(IFACE, iface);
    WordsOfOptional(PORTS, ports);
    FieldsOfAllConcat(fixed + Optional(UPSTREAM, upstream) + Optional(IFACE, iface), Optional(PORTS, ports));
    FieldsOfAllConcat(fixed + Optional(UPSTREAM, upstream), Optional(IFACE, iface));
    FieldsOfAllConcat(fixed, Optional(UPSTREAM, upstream));
  }

  lemma StripNewline()
    ensures StripNewlines("\n") == "" && forall s: string :: s + "" == s
  {
    assert "\n"[1..] == "";
  }

  lemma SentIsArguments(settings: Settings)
    ensures Sent(settings) == Arguments(settings) <==> Unspaced(settings)
  {
    var upstream, iface, ports := TrimSpace(settings.dohUpstream), TrimSpace(settings.iface), TrimSpace(settings.ports);
    FlagsAreWords();
    WordsExact(UPSTREAM, upstream);
    WordsExact(IFACE, iface);
    WordsExact(PORTS, ports);
    FixedArgumentsAreWords(settings);
    if Sent(settings) == Arguments(settings) {
      assert forall w :: w in Arguments(settings) ==> Word(w);
      assert forall w :: w in Optional(UPSTREAM, upstream) ==> w in Arguments(settings);
      assert forall w :: w in Optional(IFACE, iface) ==> w in Arguments(settings);
      assert forall w :: w in Optional(PORTS, ports) ==> w in Arguments(settings);
    }
  }

  lemma FieldAllowed(flag: string, ok: string -> bool, value: string)
    requires Word(flag) && Trimmed(value)
    requires forall v :: TokenOk(flag + v) <==> ok(v)
    ensures AllAllowed(Words(flag, value)) <==> FieldAccepted(ok, value)
  {
    if value != "" {
      WordsOfField(flag, value);
      var words := Fields(StripNewlines(value));
      AllConcat([flag + words[0]], words[1..]);
      assert AllAllowed([flag + words[0]]) <==> TokenOk(flag + words[0]) by {
        assert [flag + words[0]][0] in [flag + words[0]];
      }
    }
  }

  lemma SentAllowed(settings: Settings)
    ensures AllAllowed(Sent(settings)) <==> Accepted(settings)
  {
    var upstream, iface, ports := TrimSpace(settings.dohUpstream), TrimSpace(settings.iface), TrimSpace(settings.ports);
    FlagsAreWords();
    TrimSpaceTrims(settings.dohUpstream);
    TrimSpaceTrims(settings.iface);
    TrimSpaceTrims(settings.ports);
    forall v: string
      ensures TokenOk(UPSTREAM + v) <==> UpstreamOk(v)
      ensures TokenOk(IFACE + v) <==> IfaceOk(v)
      ensures TokenOk(PORTS + v) <==> PortsOk(v)
    {
      UpstreamToken(v);
      IfaceToken(v);
      PortsToken(v);
    }
    FieldAllowed(UPSTREAM, UpstreamOk, upstream);
    FieldAllowed(IFACE, IfaceOk, iface);
    FieldAllowed(PORTS, PortsOk, ports);
    FixedArgumentsOk(settings);
    var fixed := FixedArguments(settings);
    AllConcat(fixed + Words(UPSTREAM, upstream) + Words(IFACE, iface), Words(PORTS, ports));
    AllConcat(fixed + Words(UPSTREAM, upstream), Words(IFACE, iface));
    AllConcat(fixed, Words(UPSTREAM, upstream));
  }

  /** For every settings value: what the helper splits off the command are the fixed arguments and the words of
      each field; these are the app's own arguments exactly when no field holds white space; and the allowlist
      takes all of them exactly when the TTL is at most 255 and each field is empty, or its first word is in its
      grammar and its further words are allowed arguments. */
  lemma CommandRoundTrip(settings: Settings)
    ensures var received := Fields(StripNewlines(Join(["start"] + Arguments(settings), " ") + "\n"));
            && received == ["start"] + Sent(settings)
            && (received == ["start"] + Arguments(settings) <==> Unspaced(settings))
            && (AllAllowed(received[1..]) <==> Accepted(settings))
  {
    CommandSplits(settings);
    SentIsArguments(settings);
    SentAllowed(settings);
    assert (["start"] + Sent(settings))[1..] == Sent(settings);
    assert (["start"] + Arguments(settings))[1..] == Arguments(settings);
  }

  // What the words mean to the program they are for: an option parser that takes every flag once.

  datatype Options = Options(
    ttl: Option<nat>, doh: Option<bool>, upstream: Option<string>, iface: Option<string>, ports: Option<string>)

  const NOTHING := Options(None, None, None, None, None)

  function ReadWord(w: string, o: Options): Option<Options> {
    if HasPrefix(w, "--fake-ttl=") then
      var value := w[|"--fake-ttl="|..];
      if o.ttl.Some? || value == "" || !AllDigits(value) then None else Some(o.(ttl := Some(Value(value))))
    else if HasPrefix(w, "--doh=") then
      var value := w[|"--doh="|..];
      if o.doh.Some? || (value != "true" && value != "false") then None else Some(o.(doh := Some(value == "true")))
    else if HasPrefix(w, "--doh-upstream=") then
      if o.upstream.Some? then None else Some(o.(upstream := Some(w[|"--doh-upstream="|..])))
    else if HasPrefix(w, "--interface=") then
      if o.iface.Some? then None else Some(o.(iface := Some(w[|"--interface="|..])))
    else if HasPrefix(w, "--ports=") then
      if o.ports.Some? then None else Some(o.(ports := Some(w[|"--ports="|..])))
    else None
  }

  function ReadWords(words: seq<string>, o: Options): Option<Options> {
    if words == [] then Some(o)
    else
      match ReadWord(words[0], o)
      case None => None
      case Some(next) => ReadWords(words[1..], next)
  }

  function Given(value: string): Option<string> {
    if value == "" then None else Some(value)
  }

  /** What the user chose. */
  function Chosen(settings: Settings): Options {
    Options(Some(if settings.fakeTtl < 1 then 1 else settings.fakeTtl), Some(settings.dohEnabled),
            Given(TrimSpace(settings.dohUpstream)), Given(TrimSpace(settings.iface)), Given(TrimSpace(settings.ports)))
  }

  lemma ReadTtl(n: nat, o: Options)
    requires o.ttl.None?
    ensures ReadWord(FAKE_TTL + Digits(n), o) == Some(o.(ttl := Some(n)))
  {
    var w := FAKE_TTL + Digits(n);
    ValueOfDigits(n);
    assert w[|FAKE_TTL|..] == Digits(n);
  }

  lemma ReadDoh(on: bool, o: Options)
    requires o.doh.None?
    ensures ReadWord(DOH + if on then "true" else "false", o) == Some(o.(doh := Some(on)))
  {
    var value := if on then "true" else "false";
    var w := DOH + value;
    assert value[0] == if on then 't' else 'f';
    assert w[|DOH|..] == value && w[2] == 'd' && FAKE_TTL[2] == 'f';
  }

  lemma ReadUpstream(value: string, o: Options)
    requires o.upstream.None?
    ensures ReadWord(UPSTREAM + value, o) == Some(o.(upstream := Some(value)))
  {
    var w := UPSTREAM + value;
    assert w[|UPSTREAM|..] == value && w[2] == 'd' && FAKE_TTL[2] == 'f' && w[5] == '-' && DOH[5] == '=';
  }

  lemma ReadIface(value: string, o: Options)
    requires o.iface.None?
    ensures ReadWord(IFACE + value, o) == Some(o.(iface := Some(value)))
  {
    var w := IFACE + value;
    assert w[|IFACE|..] == value && w[2] == 'i' && FAKE_TTL[2] == 'f' && DOH[2] == 'd' && UPSTREAM[2] == 'd';
  }

  lemma ReadPorts(value: string, o: Options)
    requires o.ports.None?
    ensures ReadWord(PORTS + value, o) == Some(o.(ports := Some(value)))
  {
    var w := PORTS + value;
    assert w[|PORTS|..] == value && w[2] == 'p';
    assert FAKE_TTL[2] == 'f' && DOH[2] == 'd' && UPSTREAM[2] == 'd' && IFACE[2] == 'i';
  }

  lemma {:induction false} ReadConcat(a: seq<string>, b: seq<string>, o: Options)
    ensures ReadWords(a + b, o)
            == match ReadWords(a, o) case None => None case Some(next) => ReadWords(b, next)
  {
    if a == [] {
      assert a + b == b;
    } else {
      assert (a + b)[1..] == a[1..] + b;
      if ReadWord(a[0], o).Some? {
        ReadConcat(a[1..], b, ReadWord(a[0], o).value);
      }
    }
  }

  lemma ReadOptional(flag: string, value: string, o: Options)
    ensures ReadWords(Optional(flag, value), o) == if value == "" then Some(o) else ReadWord(flag + value, o)
  {
    if value != "" {
      assert Optional(flag, value)[1..] == [];
    }
  }

  lemma ReadTwo(v: string, w: string, o: Options)
    requires ReadWord(v, o).Some?
    ensures ReadWords([v, w], o) == ReadWord(w, ReadWord(v, o).value)
  {
    var next := ReadWord(v, o).value;
    assert [v, w][1..] == [w] && [w][1..] == [];
    assert ReadWords([w], next) == ReadWord(w, next) by {
      if ReadWord(w, next).Some? {
        assert ReadWords([], ReadWord(w, next).value) == ReadWord(w, next);
      }
    }
  }

  lemma ReadFixed(settings: Settings)
    ensures ReadWords(FixedArguments(settings), NOTHING)
            == Some(NOTHING.(ttl := Chosen(settings).ttl, doh := Chosen(settings).doh))
  {
    var ttl, doh := FAKE_TTL + Digits(EffectiveTtl(settings)), DOH + if settings.dohEnabled then "true" else "false";
    var next := NOTHING.(ttl := Chosen(settings).ttl);
    ReadTtl(EffectiveTtl(settings), NOTHING);
    ReadDoh(settings.dohEnabled, next);
    ReadTwo(ttl, doh, NOTHING);
  }

  lemma ReadArguments(settings: Settings)
    ensures ReadWords(Arguments(settings), NOTHING) == Some(Chosen(settings))
  {
    var upstream, iface, ports := TrimSpace(settings.dohUpstream), TrimSpace(settings.iface), TrimSpace(settings.ports);
    var fixed, chosen := FixedArguments(settings), Chosen(settings);
    var o0 := NOTHING.(ttl := chosen.ttl, doh := chosen.doh);
    var o1 := o0.(upstream := chosen.upstream);
    var o2 := o1.(iface := chosen.iface);
    ReadFixed(settings);
    ReadOptional(UPSTREAM, upstream, o0);
    ReadUpstream(upstream, o0);
    ReadOptional(IFACE, iface, o1);
    ReadIface(iface, o1);
    ReadOptional(PORTS, ports, o2);
    ReadPorts(ports, o2);
    ReadConcat(fixed + Optional(UPSTREAM, upstream) + Optional(IFACE, iface), Optional(PORTS, ports), NOTHING);
    ReadConcat(fixed + Optional(UPSTREAM, upstream), Optional(IFACE, iface), NOTHING);
    ReadConcat(fixed, Optional(UPSTREAM, upstream), NOTHING);
  }

  /** Reading what arrives, flag by flag, gives the settings back, each flag standing once exactly if its trimmed
      field is not empty, when no field holds white space. TTL and DoH switch are given back in any case. */
  lemma CommandGivesSettings(settings: Settings)
    ensures var received := Fields(StripNewlines(Join(["start"] + Arguments(settings), " ") + "\n"));
            && |received| >= 3 && received[0] == "start"
            && ReadWords(received[1..3], NOTHING)
               == Some(NOTHING.(ttl := Chosen(settings).ttl, doh := Chosen(settings).doh))
            && (Unspaced(settings) ==> ReadWords(received[1..], NOTHING) == Some(Chosen(settings)))
  {
    CommandSplits(settings);
    SentIsArguments(settings);
    ReadFixed(settings);
    ReadArguments(settings);
    SentStarts(Sent(settings), FixedArguments(settings));
  }

  lemma SentStarts(sent: seq<string>, fixed: seq<string>)
    requires fixed <= sent && |fixed| == 2
    ensures (["start"] + sent)[1..] == sent && (["start"] + sent)[1..3] == fixed
  {
  }

  /** Where no field holds white space, accepted means that every field is in its grammar. */
  lemma AcceptedIsAcceptable(settings: Settings)
    requires Unspaced(settings)
    ensures Accepted(settings) <==> Acceptable(settings)
  {
    SentIsArguments(settings);
    SentAllowed(settings);
    ArgumentsOk(settings);
  }

  /** Allowed arguments hold no white space of any kind. */
  predicate Plain(s: string) {
    forall c :: c in s ==> ',' <= c <= 'z'
  }

  lemma GrammarIsPlain(value: string)
    requires FakeTtlOk(value) || UpstreamOk(value) || IfaceOk(value) || PortsOk(value)
    ensures Plain(value) && value != ""
  {
    if !UpstreamOk(value) {
      assert forall c :: c in value ==> 'a' <= c <= 'z' || IsDigit(c) || c == ',';
    }
  }

  lemma PlainBehind(flag: string, token: string)
    requires HasPrefix(token, flag) && Plain(flag) && Plain(token[|flag|..]) && flag != ""
    ensures Plain(token) && token != ""
  {
    assert token == flag + token[|flag|..];
  }

  lemma AllowedIsPlain(token: string)
    requires TokenOk(token)
    ensures Plain(token) && Word(token)
  {
    var flag := if HasPrefix(token, FAKE_TTL) then FAKE_TTL else if HasPrefix(token, DOH) then DOH
                else if HasPrefix(token, UPSTREAM) then UPSTREAM else if HasPrefix(token, IFACE) then IFACE else PORTS;
    if flag != DOH {
      GrammarIsPlain(token[|flag|..]);
    }
    PlainBehind(flag, token);
  }

  lemma TwoArgumentsTrimmed(iface: string, token: string)
    requires IfaceOk(iface) && TokenOk(token)
    ensures Word(iface) && Word(token) && Trimmed(iface + " " + token)
  {
    GrammarIsPlain(iface);
    AllowedIsPlain(token);
    var value := iface + " " + token;
    assert value[0] == iface[0] && iface[0] in iface;
    assert value[|value| - 1] == token[|token| - 1] && token[|token| - 1] in token;
  }

  /** An interface field that holds an interface and, behind a blank, any allowed argument is not in its
      grammar, but is let through as these two arguments. */
  lemma FieldHoldsTwoArguments(iface: string, token: string)
    requires IfaceOk(iface) && TokenOk(token)
    ensures var value := iface + " " + token;
            !IfaceOk(value) && Words(IFACE, value) == [IFACE + iface, token] && FieldAccepted(IfaceOk, value)
  {
    var value := iface + " " + token;
    TwoArgumentsTrimmed(iface, token);
    TwoWords(iface, token);
    assert value[|iface|] == ' ' && ' ' in value;
    FlagsAreWords();
    WordsOfField(IFACE, value);
  }

  lemma TwoWords(a: string, b: string)
    requires Word(a) && Word(b)
    ensures Fields(StripNewlines(a + " " + b)) == [a, b]
  {
    StripConcat(a + " ", b);
    StripConcat(a, " ");
    StripStrips(" ");
    StripWord(a);
    StripWord(b);
    assert " " == [' '];
    FieldsAcrossBlank(a, ' ', b);
    FieldsOfWord(a);
    FieldsOfWord(b);
  }

  /** Settings with such a field are accepted, though not in the grammar. */
  lemma AcceptedOutsideGrammar(settings: Settings, iface: string, token: string)
    requires IfaceOk(iface) && TokenOk(token) && settings.fakeTtl <= 255
    requires TrimSpace(settings.iface) == iface + " " + token
    requires TrimSpace(settings.dohUpstream) == "" && TrimSpace(settings.ports) == ""
    ensures Accepted(settings) && !Acceptable(settings)
    ensures Sent(settings) == FixedArguments(settings) + [IFACE + iface, token]
  {
    FieldHoldsTwoArguments(iface, token);
  }

  lemma PortOne()
    ensures Word(PORTS + "1") && TokenOk(PORTS + "1") && IfaceOk("en0")
  {
    var one: seq<nat> := [1];
    assert DigitsOf(one) == ["1"];
    PortTextAccepted(one);
    PortsToken("1");
    FlagWord(PORTS, "1");
  }

  /** For instance "en0 --ports=1" in the interface field, with an empty port list. */
  lemma AcceptedOutsideGrammarInstance()
    ensures var settings := Settings(8, true, "", "en0 --ports=1", "");
            && Accepted(settings) && !Acceptable(settings)
            && Sent(settings) == FixedArguments(settings) + [IFACE + "en0", PORTS + "1"]
  {
    PortOne();
    assert "en0 --ports=1" == "en0" + " " + (PORTS + "1");
    TrimmedStays("en0 --ports=1");
    TrimmedStays("");
    AcceptedOutsideGrammar(Settings(8, true, "", "en0 --ports=1", ""), "en0", PORTS + "1");
  }

  lemma GrammarIsWord(value: string)
    requires UpstreamOk(value) || IfaceOk(value) || PortsOk(value)
    ensures Word(value)
  {
    forall c | c in value
      ensures !IsBlank(c) && c != '\r'
    {
      if !UpstreamOk(value) {
        assert 'a' <= c <= 'z' || IsDigit(c) || c == ',';
      }
    }
  }

  /** Settings in the allowed grammar hold no white space. */
  lemma AcceptableIsUnspaced(settings: Settings)
    requires Acceptable(settings)
    ensures Unspaced(settings)
  {
    var upstream, iface, ports := TrimSpace(settings.dohUpstream), TrimSpace(settings.iface), TrimSpace(settings.ports);
    if upstream != "" { GrammarIsWord(upstream); }
    if iface != "" { GrammarIsWord(iface); }
    if ports != "" { GrammarIsWord(ports); }
  }
}
