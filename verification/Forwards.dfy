// The standard port forwards, printed by internal/hypervisor/forwards.go and parsed by
// the gvproxy mode in main_gvproxy.go.
module Forwards {
  import opened Text
  import opened Wrappers

  type int32 = x: int | -0x8000_0000 <= x < 0x8000_0000

  // ---------------------------------------------------------------- numbers

  function Digit(d: nat): (c: char)
    requires d < 10
    ensures '0' <= c <= '9'
  {
    "0123456789"[d]
  }

  function Digits(n: nat): (s: string)
    ensures s != "" && (|s| == 1 <==> n < 10)
    ensures forall i :: 0 <= i < |s| ==> '0' <= s[i] <= '9'
  {
    if n < 10 then [Digit(n)] else Digits(n / 10) + [Digit(n % 10)]
  }

  // %d
  function Decimal(n: int): (s: string)
    ensures s != "" && '0' <= s[|s| - 1] <= '9'
    ensures forall i :: 0 <= i < |s| ==> '0' <= s[i] <= '9' || s[i] == '-'
  {
    if n < 0 then "-" + Digits(-n) else Digits(n)
  }

  function DigitValue(c: char): int {
    c as int - '0' as int
  }

  function Value(s: string): int {
    if s == "" then 0 else Value(s[..|s| - 1]) * 10 + DigitValue(s[|s| - 1])
  }

  lemma {:induction false} DigitsValue(n: nat)
    ensures Value(Digits(n)) == n
  {
    DigitsAreTen(n % 10);
    if n < 10 {
      assert Value([Digit(n)][..0]) == 0;
    } else {
      var s := Digits(n);
      assert s[..|s| - 1] == Digits(n / 10) && s[|s| - 1] == Digit(n % 10);
      DigitsValue(n / 10);
    }
  }

  lemma DigitsAreTen(d: nat)
    requires d < 10
    ensures DigitValue(Digit(d)) == d
  {
    assert forall k: nat :: k < 10 ==> DigitValue("0123456789"[k]) == k;
  }

  // The digits stand for the number.
  lemma DecimalValue(n: int)
    ensures Value(Decimal(if n < 0 then -n else n)) == if n < 0 then -n else n
    ensures n < 0 ==> Decimal(n) == "-" + Decimal(-n)
  {
    DigitsValue(if n < 0 then -n else n);
  }

  lemma DigitsInjective(m: nat, n: nat)
    requires Digits(m) == Digits(n)
    ensures m == n
  {
    DigitsValue(m);
    DigitsValue(n);
  }

  lemma DecimalInjective(m: int, n: int)
    requires Decimal(m) == Decimal(n)
    ensures m == n
  {
    var s, t := Decimal(m), Decimal(n);
    assert s[0] == '-' <==> m < 0;
    assert t[0] == '-' <==> n < 0;
    if m < 0 {
      assert s[1..] == Digits(-m) && t[1..] == Digits(-n);
      DigitsInjective(-m, -n);
    } else {
      DigitsInjective(m, n);
    }
  }

  // ---------------------------------------------------------------- strings

  predicate IsSpace(c: char) {
    c in {'\t', '\n', '\U{0B}', '\U{0C}', '\r', ' ', '\U{85}', '\U{A0}', '\U{1680}', '\U{2028}', '\U{2029}',
          '\U{202F}', '\U{205F}', '\U{3000}'}
    || '\U{2000}' <= c <= '\U{200A}'
  }

  function TrimLeft(s: string): string {
    if s != "" && IsSpace(s[0]) then TrimLeft(s[1..]) else s
  }

  function TrimRight(s: string): string {
    if s != "" && IsSpace(s[|s| - 1]) then TrimRight(s[..|s| - 1]) else s
  }

  function TrimSpace(s: string): string {
    TrimRight(TrimLeft(s))
  }

  function TrimPrefix(s: string, prefix: string): string {
    if prefix <= s then s[|prefix|..] else s
  }

  // ---------------------------------------------------------------- the printer

  datatype Forward = Forward(hostOffset: nat, guestPort: nat)

  const STANDARD_FORWARDS: seq<Forward> := [Forward(0, 22), Forward(1, 10022), Forward(2, 10080)]

  function Host(port: int, f: Forward): string {
    "0.0.0.0:" + Decimal(port + f.hostOffset)
  }

  function Guest(ip: string, f: Forward): string {
    ip + ":" + Decimal(f.guestPort)
  }

  function Entry(port: int, ip: string, f: Forward): string {
    Host(port, f) + "/" + Guest(ip, f)
  }

  function Entries(port: int, ip: string, fs: seq<Forward>): (es: seq<string>)
    ensures |es| == |fs| && forall i :: 0 <= i < |fs| ==> es[i] == Entry(port, ip, fs[i])
  {
    seq(|fs|, i requires 0 <= i < |fs| => Entry(port, ip, fs[i]))
  }

  // A host port given as a number, mapped to a guest port given as text.
  function Mapping(port: int, ip: string, guestPort: string): string {
    "0.0.0.0:" + Decimal(port) + "/" + (ip + ":" + guestPort)
  }

  lemma GuestPorts()
    ensures Decimal(22) == "22" && Decimal(10022) == "10022" && Decimal(10080) == "10080"
  {
    assert Digits(10) == "10" && Digits(100) == "100";
    assert Digits(1002) == "1002" && Digits(1008) == "1008";
  }

  lemma EntryIs(port: int, ip: string, f: Forward, host: int, guestPort: string)
    requires host == port + f.hostOffset && guestPort == Decimal(f.guestPort)
    ensures Entry(port, ip, f) == Mapping(host, ip, guestPort)
  {
  }

  function StandardText(port: int, ip: string): string {
    Join([Mapping(port, ip, "22"), Mapping(port + 1, ip, "10022"), Mapping(port + 2, ip, "10080")], ",")
  }

  lemma ThreeJoined(es: seq<string>, a: string, b: string, c: string)
    requires |es| == 3 && es[0] == a && es[1] == b && es[2] == c
    ensures Join(es, ",") == Join([a, b, c], ",")
  {
    assert es == [a, b, c];
  }

  lemma StandardEntries(port: int, ip: string)
    ensures Join(Entries(port, ip, STANDARD_FORWARDS), ",") == StandardText(port, ip)
  {
    var fs := STANDARD_FORWARDS;
    GuestPorts();
    EntryIs(port, ip, fs[0], port, "22");
    EntryIs(port, ip, fs[1], port + 1, "10022");
    EntryIs(port, ip, fs[2], port + 2, "10080");
    ThreeJoined(Entries(port, ip, fs), Mapping(port, ip, "22"), Mapping(port + 1, ip, "10022"), Mapping(port + 2, ip, "10080"));
  }

  method GvproxyForwards(sshPort: int32, guestIP: string) returns (s: string)
    ensures s == Join(Entries(sshPort, guestIP, STANDARD_FORWARDS), ",")
    ensures s == StandardText(sshPort, guestIP)
    ensures GoodIP(guestIP) <==> Parse(s) == Ok(Expected(map[], sshPort, guestIP, STANDARD_FORWARDS))
  {
    var fs := STANDARD_FORWARDS;
    ghost var entries := Entries(sshPort, guestIP, fs);
    var parts: seq<string> := [];
    for i := 0 to |fs|
      invariant parts == entries[..i]
    {
      TakeNext(entries, i);
      parts := parts + [Entry(sshPort, guestIP, fs[i])];
    }
    s := Join(parts, ",");
    StandardEntries(sshPort, guestIP);
    assert parts == entries;
    StandardRoundTrip(sshPort, guestIP);
  }

  // ---------------------------------------------------------------- the parser

  function ParseEntry(result: map<string, string>, raw: string): Result<map<string, string>, string> {
    var trimmed := TrimSpace(raw);
    if trimmed == "" then Ok(result)
    else
      var entry := TrimPrefix(trimmed, "tcp://");
      var i := Find(entry, '/');
      if i == |entry| then Err(entry)
      else
        var host, guest := TrimSpace(entry[..i]), TrimSpace(entry[i + 1..]);
        if host == "" || guest == "" then Err(entry) else Ok(result[host := guest])
  }

  function ParseAll(result: map<string, string>, entries: seq<string>): Result<map<string, string>, string>
    decreases |entries|
  {
    if entries == [] then Ok(result)
    else
      var r := ParseEntry(result, entries[0]);
      if r.Ok? then ParseAll(r.value, entries[1..]) else r
  }

  function Parse(raw: string): Result<map<string, string>, string> {
    if raw == "" then Ok(map[]) else ParseAll(map[], Split(raw, ','))
  }

  predicate AllSpace(s: string) {
    forall i :: 0 <= i < |s| ==> IsSpace(s[i])
  }

  function Stripped(raw: string): string {
    TrimPrefix(TrimSpace(raw), "tcp://")
  }

  // Blank, or something on both sides of the first slash.
  predicate GoodEntry(raw: string) {
    var entry := Stripped(raw);
    var i := Find(entry, '/');
    AllSpace(raw) || (i < |entry| && !AllSpace(entry[..i]) && !AllSpace(entry[i + 1..]))
  }

  // The first entry that is not good.
  function FirstBad(entries: seq<string>): Option<string> {
    if entries == [] then None
    else
      var before, last := entries[..|entries| - 1], entries[|entries| - 1];
      if FirstBad(before).Some? || GoodEntry(last) then FirstBad(before) else Some(Stripped(last))
  }

  lemma {:induction false} NoneBadIff(entries: seq<string>)
    ensures FirstBad(entries) == None <==> forall i :: 0 <= i < |entries| ==> GoodEntry(entries[i])
  {
    if entries != [] {
      NoneBadIff(entries[..|entries| - 1]);
    }
  }

  // The last entry for a host decides.
  function Lookup(entries: seq<string>, host: string): Option<string> {
    if entries == [] then None
    else
      var before, last := entries[..|entries| - 1], entries[|entries| - 1];
      var entry := Stripped(last);
      var i := Find(entry, '/');
      if !AllSpace(last) && i < |entry| && TrimSpace(entry[..i]) == host then Some(TrimSpace(entry[i + 1..]))
      else Lookup(before, host)
  }

  lemma {:induction false} TrimLeftBlank(s: string)
    ensures TrimLeft(s) == "" <==> AllSpace(s)
    ensures TrimLeft(s) != "" ==> !IsSpace(TrimLeft(s)[0])
  {
    if s != "" && IsSpace(s[0]) {
      TrimLeftBlank(s[1..]);
      assert forall i :: 1 <= i < |s| ==> s[i] == s[1..][i - 1];
    }
  }

  lemma {:induction false} TrimRightBlank(s: string)
    ensures TrimRight(s) == "" <==> AllSpace(s)
    decreases |s|
  {
    if s != "" && IsSpace(s[|s| - 1]) {
      TrimRightBlank(s[..|s| - 1]);
    }
  }

  lemma TrimSpaceBlank(s: string)
    ensures TrimSpace(s) == "" <==> AllSpace(s)
  {
    TrimLeftBlank(s);
    TrimRightBlank(TrimLeft(s));
  }

  lemma ParseEntryIff(result: map<string, string>, raw: string)
    ensures ParseEntry(result, raw).Ok? <==> GoodEntry(raw)
    ensures ParseEntry(result, raw).Err? ==> ParseEntry(result, raw).error == Stripped(raw)
  {
    TrimSpaceBlank(raw);
    var entry := Stripped(raw);
    var i := Find(entry, '/');
    if i < |entry| {
      TrimSpaceBlank(entry[..i]);
      TrimSpaceBlank(entry[i + 1..]);
    }
  }

  lemma {:induction false} ParseAllNext(result: map<string, string>, entries: seq<string>, e: string)
    ensures ParseAll(result, entries + [e])
         == (var r := ParseAll(result, entries); if r.Ok? then ParseEntry(r.value, e) else r)
    decreases |entries|
  {
    if entries == [] {
      assert ([] + [e])[1..] == [];
    } else {
      assert (entries + [e])[1..] == entries[1..] + [e];
      var r := ParseEntry(result, entries[0]);
      if r.Ok? {
        ParseAllNext(r.value, entries[1..], e);
      }
    }
  }

  // The result holds what the good entries say; a bad one is the error.
  ghost predicate Means(entries: seq<string>, r: Result<map<string, string>, string>) {
    match r
    case Ok(m) => FirstBad(entries) == None && forall host :: Lookup(entries, host) == At(m, host)
    case Err(entry) => FirstBad(entries) == Some(entry)
  }

  function At(m: map<string, string>, host: string): Option<string> {
    if host in m then Some(m[host]) else None
  }

  lemma MeansNext(entries: seq<string>, m: map<string, string>, e: string)
    requires Means(entries, Ok(m))
    ensures Means(entries + [e], ParseEntry(m, e))
  {
    assert (entries + [e])[..|entries|] == entries;
    ParseEntryIff(m, e);
    TrimSpaceBlank(e);
    var r := ParseEntry(m, e);
    if r.Ok? {
      forall host
        ensures Lookup(entries + [e], host) == At(r.value, host)
      {
        assert Lookup(entries, host) == At(m, host);
      }
    }
  }

  lemma {:induction false} ParseAllMeans(entries: seq<string>)
    ensures Means(entries, ParseAll(map[], entries))
  {
    if entries != [] {
      var before, last := entries[..|entries| - 1], entries[|entries| - 1];
      assert entries == before + [last];
      ParseAllMeans(before);
      ParseAllNext(map[], before, last);
      var r := ParseAll(map[], before);
      if r.Ok? {
        MeansNext(before, r.value, last);
      }
    }
  }

  lemma ParseMeans(raw: string)
    ensures Means(Split(raw, ','), Parse(raw))
  {
    ParseAllMeans(Split(raw, ','));
    if raw == "" {
      assert TrimSpace("") == "";
      assert ParseAll(map[], [""]) == ParseAll(map[], [""][1..]);
    }
  }

  method ParseForwards(raw: string) returns (r: Result<map<string, string>, string>)
    ensures r == Parse(raw)
    ensures Means(Split(raw, ','), r)
  {
    ParseMeans(raw);
    if raw == "" {
      return Ok(map[]);
    }
    var result: map<string, string> := map[];
    var entries := Split(raw, ',');
    for i := 0 to |entries|
      invariant ParseAll(result, entries[i..]) == Parse(raw)
    {
      assert entries[i..][0] == entries[i] && entries[i..][1..] == entries[i + 1..];
      var entry := TrimSpace(entries[i]);
      if entry == "" {
        continue;
      }
      entry := TrimPrefix(entry, "tcp://");
      var cut := Find(entry, '/');
      if cut == |entry| {
        return Err(entry);
      }
      var host, guest := TrimSpace(entry[..cut]), TrimSpace(entry[cut + 1..]);
      if host == "" || guest == "" {
        return Err(entry);
      }
      result := result[host := guest];
    }
    r := Ok(result);
  }

  // ---------------------------------------------------------------- the round trip

  function Expected(result: map<string, string>, port: int, ip: string, fs: seq<Forward>): map<string, string>
    decreases |fs|
  {
    if fs == [] then result else Expected(result[Host(port, fs[0]) := Guest(ip, fs[0])], port, ip, fs[1..])
  }

  predicate DistinctOffsets(fs: seq<Forward>) {
    forall i, j :: 0 <= i < j < |fs| ==> fs[i].hostOffset != fs[j].hostOffset
  }

  ghost predicate Extends(m: map<string, string>, result: map<string, string>) {
    forall k :: k in result ==> k in m && m[k] == result[k]
  }

  // One more entry per forward, under a key of its own.
  lemma {:induction false} ExpectedIsOneToOne(result: map<string, string>, port: int, ip: string, fs: seq<Forward>)
    requires DistinctOffsets(fs) && forall f :: f in fs ==> Host(port, f) !in result
    ensures
      var m := Expected(result, port, ip, fs);
      && |m| == |result| + |fs| && Extends(m, result)
      && forall f :: f in fs ==> Host(port, f) in m && m[Host(port, f)] == Guest(ip, f)
    decreases |fs|
  {
    if fs != [] {
      var host, guest := Host(port, fs[0]), Guest(ip, fs[0]);
      var next := result[host := guest];
      assert fs[0] in fs && |next| == |result| + 1;
      forall f | f in fs[1..]
        ensures Host(port, f) !in next
      {
        HostInjective(port, f, fs[0]);
      }
      ExpectedIsOneToOne(next, port, ip, fs[1..]);
      assert host in next;
      assert forall f :: f in fs ==> f == fs[0] || f in fs[1..];
    }
  }

  lemma HostInjective(port: int, f: Forward, g: Forward)
    ensures Host(port, f) == Host(port, g) ==> f.hostOffset == g.hostOffset
  {
    if Host(port, f) == Host(port, g) {
      assert Host(port, f)[8..] == Decimal(port + f.hostOffset);
      assert Host(port, g)[8..] == Decimal(port + g.hostOffset);
      DecimalInjective(port + f.hostOffset, port + g.hostOffset);
    }
  }

  predicate GoodIP(ip: string) {
    ',' !in ip && (ip != "" ==> !IsSpace(ip[0]))
  }

  predicate Trimmed(s: string) {
    s != "" && !IsSpace(s[0]) && !IsSpace(s[|s| - 1])
  }

  lemma TrimSpaceTrimmed(s: string)
    requires Trimmed(s)
    ensures TrimSpace(s) == s
  {
  }

  lemma {:induction false} TrimLeftAround(a: string, e: string)
    requires AllSpace(a) && e != "" && !IsSpace(e[0])
    ensures TrimLeft(a + e) == e
  {
    if a == "" {
      assert a + e == e;
    } else {
      assert (a + e)[1..] == a[1..] + e;
      TrimLeftAround(a[1..], e);
    }
  }

  lemma {:induction false} TrimRightAround(e: string, b: string)
    requires AllSpace(b) && e != "" && !IsSpace(e[|e| - 1])
    ensures TrimRight(e + b) == e
    decreases |b|
  {
    if b == "" {
      assert e + b == e;
    } else {
      assert (e + b)[..|e + b| - 1] == e + b[..|b| - 1];
      TrimRightAround(e, b[..|b| - 1]);
    }
  }

  lemma TrimSpaceAround(a: string, e: string, b: string)
    requires AllSpace(a) && AllSpace(b) && Trimmed(e)
    ensures TrimSpace(a + (e + b)) == e
  {
    TrimLeftAround(a, e + b);
    TrimRightAround(e, b);
  }

  // White space around an entry means nothing, and neither does "tcp://" before it.
  lemma EntrySpelling(result: map<string, string>, a: string, e: string, b: string)
    requires AllSpace(a) && AllSpace(b) && Trimmed(e) && !("tcp://" <= e)
    ensures ParseEntry(result, a + (e + b)) == ParseEntry(result, e)
    ensures ParseEntry(result, a + (("tcp://" + e) + b)) == ParseEntry(result, e)
  {
    var scheme := "tcp://" + e;
    TrimSpaceAround(a, e, b);
    TrimSpaceTrimmed(e);
    assert scheme[|scheme| - 1] == e[|e| - 1] && scheme[0] == 't';
    TrimSpaceAround(a, scheme, b);
    assert scheme[6..] == e;
  }

  lemma HostShape(port: int, f: Forward)
    ensures Trimmed(Host(port, f)) && ',' !in Host(port, f) && '/' !in Host(port, f) && Host(port, f)[0] == '0'
  {
  }

  lemma GuestShape(ip: string, f: Forward)
    requires GoodIP(ip)
    ensures Trimmed(Guest(ip, f)) && ',' !in Guest(ip, f)
  {
    assert ip == "" ==> Guest(ip, f)[0] == ':';
  }

  lemma {:induction false} SlashAfter(host: string, guest: string)
    requires '/' !in host
    ensures Find(host + "/" + guest, '/') == |host|
  {
    if host != "" {
      assert host[0] in host;
      assert (host + "/" + guest)[1..] == host[1..] + "/" + guest;
      SlashAfter(host[1..], guest);
    }
  }

  lemma ParseGoodEntry(result: map<string, string>, port: int, ip: string, f: Forward)
    requires GoodIP(ip)
    ensures ',' !in Entry(port, ip, f)
    ensures ParseEntry(result, Entry(port, ip, f)) == Ok(result[Host(port, f) := Guest(ip, f)])
  {
    var host, guest, entry := Host(port, f), Guest(ip, f), Entry(port, ip, f);
    HostShape(port, f);
    GuestShape(ip, f);
    TrimSpaceTrimmed(entry);
    TrimSpaceTrimmed(host);
    TrimSpaceTrimmed(guest);
    assert entry[0] == '0' && !("tcp://" <= entry) by {
      assert "tcp://"[0] == 't';
    }
    SlashAfter(host, guest);
    assert entry[..|host|] == host && entry[|host| + 1..] == guest;
  }

  lemma {:induction false} ParseGoodEntries(result: map<string, string>, port: int, ip: string, fs: seq<Forward>)
    requires GoodIP(ip)
    ensures ParseAll(result, Entries(port, ip, fs)) == Ok(Expected(result, port, ip, fs))
    decreases |fs|
  {
    if fs != [] {
      ParseGoodEntry(result, port, ip, fs[0]);
      assert Entries(port, ip, fs)[1..] == Entries(port, ip, fs[1..]);
      ParseGoodEntries(result[Host(port, fs[0]) := Guest(ip, fs[0])], port, ip, fs[1..]);
    }
  }

  lemma {:induction false} TrimLeftStart(s: string)
    ensures TrimLeft(s) != "" ==> !IsSpace(TrimLeft(s)[0])
    ensures ',' !in s ==> ',' !in TrimLeft(s)
  {
    if s != "" && IsSpace(s[0]) {
      TrimLeftStart(s[1..]);
    }
  }

  lemma {:induction false} TrimRightStart(s: string)
    ensures TrimRight(s) <= s
    ensures ',' !in s ==> ',' !in TrimRight(s)
    decreases |s|
  {
    if s != "" && IsSpace(s[|s| - 1]) {
      TrimRightStart(s[..|s| - 1]);
    }
  }

  lemma TrimSpaceShape(s: string)
    ensures TrimSpace(s) != "" ==> !IsSpace(TrimSpace(s)[0])
    ensures ',' !in s ==> ',' !in TrimSpace(s)
  {
    TrimLeftStart(s);
    TrimRightStart(TrimLeft(s));
  }

  predicate CleanValues(m: map<string, string>) {
    forall k :: k in m ==> m[k] != "" && !IsSpace(m[k][0]) && ',' !in m[k]
  }

  // No parsed guest contains a comma or starts with white space, whatever the input.
  lemma {:induction false} ParsedValuesClean(result: map<string, string>, entries: seq<string>)
    requires CleanValues(result) && Without(entries, ',')
    ensures ParseAll(result, entries).Ok? ==> CleanValues(ParseAll(result, entries).value)
    decreases |entries|
  {
    if entries != [] {
      TrimSpaceShape(entries[0]);
      var entry := TrimPrefix(TrimSpace(entries[0]), "tcp://");
      TrimSpaceShape(entry[if Find(entry, '/') < |entry| then Find(entry, '/') + 1 else 0..]);
      var r := ParseEntry(result, entries[0]);
      if r.Ok? {
        ParsedValuesClean(r.value, entries[1..]);
      }
    }
  }

  lemma {:induction false} JoinNonEmpty(parts: seq<string>)
    requires parts != [] && parts[0] != ""
    ensures Join(parts, ",") != ""
  {
  }

  lemma RoundTrip(port: int, ip: string, fs: seq<Forward>)
    requires fs != [] && GoodIP(ip)
    ensures Parse(Join(Entries(port, ip, fs), ",")) == Ok(Expected(map[], port, ip, fs))
  {
    var es := Entries(port, ip, fs);
    forall i | 0 <= i < |es|
      ensures ',' !in es[i]
    {
      ParseGoodEntry(map[], port, ip, fs[i]);
    }
    JoinNonEmpty(es);
    SplitJoin(es, ',');
    ParseGoodEntries(map[], port, ip, fs);
  }

  lemma ExpectedNotClean(port: int, ip: string, fs: seq<Forward>)
    requires fs != [] && DistinctOffsets(fs) && !GoodIP(ip)
    ensures !CleanValues(Expected(map[], port, ip, fs))
  {
    ExpectedIsOneToOne(map[], port, ip, fs);
    assert fs[0] in fs;
    var guest := Expected(map[], port, ip, fs)[Host(port, fs[0])];
    assert guest == ip + ":" + Decimal(fs[0].guestPort);
    assert ip != "" ==> guest[0] == ip[0];
    if ',' in ip {
      assert ',' in guest;
    }
  }

  // The parser reads the printed forwards back exactly for the guest addresses without a
  // comma and without leading white space.
  lemma RoundTripIff(port: int, ip: string, fs: seq<Forward>)
    requires fs != [] && DistinctOffsets(fs)
    ensures Parse(Join(Entries(port, ip, fs), ",")) == Ok(Expected(map[], port, ip, fs)) <==> GoodIP(ip)
  {
    if GoodIP(ip) {
      RoundTrip(port, ip, fs);
    } else {
      var raw := Join(Entries(port, ip, fs), ",");
      SplitWithout(raw, ',');
      ParsedValuesClean(map[], Split(raw, ','));
      ExpectedNotClean(port, ip, fs);
    }
  }

  lemma StandardRoundTrip(port: int, ip: string)
    ensures Parse(Join(Entries(port, ip, STANDARD_FORWARDS), ",")) == Ok(Expected(map[], port, ip, STANDARD_FORWARDS))
      <==> GoodIP(ip)
  {
    RoundTripIff(port, ip, STANDARD_FORWARDS);
  }

  // A generated SSH port is 10000 plus a random number below `range`. Every host port is
  // a TCP port for all of them exactly when the range is at most the one used, 55534.
  const BASE: nat := 10000
  const RANGE: nat := 55534

  predicate HostPortsInRange(random: nat) {
    forall i :: 0 <= i < |STANDARD_FORWARDS| ==> BASE + random + STANDARD_FORWARDS[i].hostOffset <= 65535
  }

  lemma HostPortsInRangeIff(range: nat)
    ensures (forall r: nat :: r < range ==> HostPortsInRange(r)) <==> range <= RANGE
  {
    if range > RANGE {
      assert BASE + RANGE + STANDARD_FORWARDS[2].hostOffset == 65536;
      assert !HostPortsInRange(RANGE);
    } else {
      assert forall i :: 0 <= i < |STANDARD_FORWARDS| ==> STANDARD_FORWARDS[i].hostOffset <= 2;
    }
  }
}
