// The nerve configuration that is written for local services, and reading one
// (src/fullerite/util/nerve_config.go:37-117, 148-166).
module Nerve {
  import opened Metrics
  import opened Sanitize
  import opened Text

  // Decoded JSON; Other stands for numbers, booleans and null.
  datatype Json = Str(s: string) | List(items: seq<Json>) | Object(fields: map<string, Json>) | Other

  type Fields = map<string, Json>

  datatype Service = Service(name: string, namespace: string, host: string, port: int)

  datatype EndPoint = EndPoint(host: string, port: string)

  // ---- Numbers as text ----

  predicate Digit(c: char) {
    '0' <= c <= '9'
  }

  predicate AllDigits(s: string) {
    s != "" && forall i :: 0 <= i < |s| ==> Digit(s[i])
  }

  function Value(s: string): int
    requires forall i :: 0 <= i < |s| ==> Digit(s[i])
  {
    if s == "" then 0 else 10 * Value(s[..|s| - 1]) + (s[|s| - 1] as int - '0' as int)
  }

  function InInt64(n: int): Option<int> {
    if -0x8000_0000_0000_0000 <= n < 0x8000_0000_0000_0000 then Some(n) else None
  }

  // strconv.ParseInt(s, 10, 64)
  function ParseInt(s: string): Option<int> {
    if AllDigits(s) then InInt64(Value(s))
    else if s != "" && (s[0] == '+' || s[0] == '-') && AllDigits(s[1..]) then
      InInt64(if s[0] == '-' then -Value(s[1..]) else Value(s[1..]))
    else None
  }

  function Numeral(n: nat): (s: string)
    ensures AllDigits(s)
  {
    var last := [(n % 10 + '0' as int) as char];
    if n < 10 then last else Numeral(n / 10) + last
  }

  // strconv.Itoa
  function Itoa(n: int): string {
    if n < 0 then "-" + Numeral(-n) else Numeral(n)
  }

  lemma {:induction false} NumeralValue(n: nat)
    ensures Value(Numeral(n)) == n
  {
    if n >= 10 {
      NumeralValue(n / 10);
    }
  }

  lemma ItoaIsInjective(a: int, b: int)
    requires Itoa(a) == Itoa(b)
    ensures a == b
  {
    assert a < 0 <==> b < 0 by {
      assert Digit(Numeral(if a < 0 then -a else a)[0]) && Digit(Numeral(if b < 0 then -b else b)[0]);
    }
    NumeralValue(if a < 0 then -a else a);
    NumeralValue(if b < 0 then -b else b);
    if a < 0 {
      assert Itoa(a)[1..] == Numeral(-a) && Itoa(b)[1..] == Numeral(-b);
    }
  }

  lemma ItoaHasNoColon(n: int)
    ensures ':' !in Itoa(n)
  {
  }

  // ---- extractPort ----

  predicate Contains(s: string, sub: string) {
    |sub| <= |s| && (s[..|sub|] == sub || (s != "" && Contains(s[1..], sub)))
  }

  // The outcome of reading a port; extractPort's -1 is NoPort.
  datatype Port = Panic | NoPort | Port(n: int)

  function PortIn(u: Unicode, uri: string): Port {
    var pieces := Split(uri, '/');
    if uri == "" || |pieces| <= 3 || !Contains(TrimSpace(u, pieces[1]), "http") then NoPort
    else
      var n := ParseInt(pieces[3]);
      if n.None? || n == Some(-1) then NoPort else Port(n.value)
  }

  function ExtractPort(u: Unicode, service: Fields): Port {
    if "checks" in service && service["checks"].List? then
      var checks := service["checks"].items;
      if checks == [] || !checks[0].Object? then Panic
      else if "uri" in checks[0].fields && checks[0].fields["uri"].Str? then PortIn(u, checks[0].fields["uri"].s)
      else NoPort
    else NoPort
  }

  // ---- One service of a configuration ----

  datatype Outcome = Crash | Skip | Found(service: Service)

  function Read(u: Unicode, raw: string, service: Fields): Outcome {
    var parts := Split(raw, '.');
    if "host" !in service || !service["host"].Str? || |parts| < 2 then Crash
    else
      match ExtractPort(u, service)
      case Panic => Crash
      case NoPort => Skip
      case Port(n) => Found(Service(parts[0], parts[1], TrimSpace(u, service["host"].s), n))
  }

  // ---- What reading one service means ----

  lemma {:induction false} ContainsExactlyWhen(s: string, sub: string)
    ensures Contains(s, sub) <==> exists i :: 0 <= i <= |s| - |sub| && StandsAt(s, sub, i)
  {
    if |sub| <= |s| {
      assert s[..|sub|] == sub <==> StandsAt(s, sub, 0);
      if s != "" {
        ContainsExactlyWhen(s[1..], sub);
        forall i | 0 < i <= |s| - |sub| ensures StandsAt(s, sub, i) <==> StandsAt(s[1..], sub, i - 1) {
          assert s[1..][i - 1..i - 1 + |sub|] == s[i..i + |sub|];
        }
        if i :| 0 <= i <= |s[1..]| - |sub| && StandsAt(s[1..], sub, i) {
          assert StandsAt(s, sub, i + 1);
        }
      }
    }
  }

  predicate StandsAt(s: string, sub: string, i: int) {
    0 <= i && i + |sub| <= |s| && s[i..i + |sub|] == sub
  }

  lemma ValueSnoc(s: string, c: char)
    requires (forall i :: 0 <= i < |s| ==> Digit(s[i])) && Digit(c)
    ensures Value(s + [c]) == 10 * Value(s) + (c as int - 48) && Value("") == 0
  {
    assert (s + [c])[..|s|] == s;
  }

  lemma SignedReads(s: string)
    requires AllDigits(s)
    ensures ParseInt("+" + s) == InInt64(Value(s)) && ParseInt("-" + s) == InInt64(-Value(s))
  {
    assert ("+" + s)[1..] == s && ("-" + s)[1..] == s;
    assert ("+" + s)[0] == '+' && ("-" + s)[0] == '-';
    assert !Digit('+') && !Digit('-');
  }

  // The number of a decimal numeral, with a sign or without, that fits 64 bits; any
  // other text has none.
  lemma ParseIntMeans(s: string)
    ensures AllDigits(s) ==> ParseInt(s) == if Value(s) < 0x8000_0000_0000_0000 then Some(Value(s)) else None
    ensures AllDigits(s) ==>
              && ParseInt("+" + s) == ParseInt(s)
              && ParseInt("-" + s) == if Value(s) <= 0x8000_0000_0000_0000 then Some(-Value(s)) else None
    ensures ParseInt(s).Some? ==> AllDigits(s) || (s != "" && s[0] in "+-" && AllDigits(s[1..]))
  {
    if AllDigits(s) {
      ValueIsNat(s);
      SignedReads(s);
    }
  }

  lemma {:induction false} ValueIsNat(s: string)
    requires forall i :: 0 <= i < |s| ==> Digit(s[i])
    ensures Value(s) >= 0
  {
    if s != "" {
      ValueIsNat(s[..|s| - 1]);
    }
  }

  lemma {:induction false} NumeralStarts(n: nat)
    ensures Numeral(n)[0] == '0' <==> n == 0
  {
    if n >= 10 {
      NumeralStarts(n / 10);
      assert Numeral(n)[0] == Numeral(n / 10)[0];
    }
  }

  // A port's numeral is the number again when it is read, and has no zeros in front.
  lemma ItoaReadsBack(n: int)
    requires -0x8000_0000_0000_0000 <= n < 0x8000_0000_0000_0000
    ensures ParseInt(Itoa(n)) == Some(n)
    ensures n >= 0 ==> AllDigits(Itoa(n)) && (Itoa(n)[0] == '0' ==> Itoa(n) == "0")
    ensures n < 0 ==> Itoa(n) == "-" + Itoa(-n)
  {
    var k := if n < 0 then -n else n;
    NumeralValue(k);
    NumeralStarts(k);
    ParseIntMeans(Numeral(k));
    if n < 0 {
      SignedReads(Numeral(k));
    }
  }

  // The uri of the first check.
  function FirstUri(service: Fields): Option<string> {
    if "checks" in service && service["checks"].List? && service["checks"].items != [] &&
       service["checks"].items[0].Object? && "uri" in service["checks"].items[0].fields &&
       service["checks"].items[0].fields["uri"].Str?
    then Some(service["checks"].items[0].fields["uri"].s)
    else None
  }

  // The port a uri names: a number in its fourth piece, when "http" is in the second.
  ghost predicate NamesPort(u: Unicode, uri: string, n: int) {
    var pieces := Split(uri, '/');
    && |pieces| > 3 && n != -1 && ParseInt(pieces[3]) == Some(n)
    && exists i :: 0 <= i <= |TrimSpace(u, pieces[1])| - 4 && StandsAt(TrimSpace(u, pieces[1]), "http", i)
  }

  lemma PortInMeans(u: Unicode, uri: string)
    ensures PortIn(u, uri) == NoPort || (PortIn(u, uri).Port? && NamesPort(u, uri, PortIn(u, uri).n))
    ensures forall n :: NamesPort(u, uri, n) ==> PortIn(u, uri) == Port(n)
  {
    var pieces := Split(uri, '/');
    if |pieces| > 3 {
      ContainsExactlyWhen(TrimSpace(u, pieces[1]), "http");
    }
  }

  // A service is read from a host, a dotted name and the uri of its first check; it
  // crashes the reader without a host in text or a dot, or with checks whose first is
  // no map; and it is skipped otherwise.
  lemma ReadMeans(u: Unicode, raw: string, service: Fields)
    ensures var parts, crash := Split(raw, '.'), Read(u, raw, service).Crash?;
            && (crash <==>
                  || "host" !in service || !service["host"].Str? || |parts| < 2
                  || ("checks" in service && service["checks"].List? &&
                      (service["checks"].items == [] || !service["checks"].items[0].Object?)))
            && (forall n :: !crash && FirstUri(service).Some? && NamesPort(u, FirstUri(service).value, n) ==>
                  Read(u, raw, service) == Found(Service(parts[0], parts[1], TrimSpace(u, service["host"].s), n)))
            && (Read(u, raw, service).Found? ==>
                  FirstUri(service).Some? &&
                  NamesPort(u, FirstUri(service).value, Read(u, raw, service).service.port))
  {
    if FirstUri(service).Some? {
      PortInMeans(u, FirstUri(service).value);
    }
  }

  function Key(s: Service, namespaceIncluded: bool): string {
    if namespaceIncluded then s.name + s.namespace + ":" + Itoa(s.port) else s.name + ":" + Itoa(s.port)
  }

  // What reading a configuration gives: some of the services in it, one for
  // each key, and a service for every key.
  ghost predicate IsReading(u: Unicode, config: map<string, Fields>, namespaceIncluded: bool, results: seq<Service>) {
    && (forall i :: 0 <= i < |results| ==> InConfig(u, config, results[i]))
    && (forall raw :: raw in config && Read(u, raw, config[raw]).Found? ==>
          HasKey(results, namespaceIncluded, Key(Read(u, raw, config[raw]).service, namespaceIncluded)))
    && (forall i, j :: 0 <= i < j < |results| ==>
        Key(results[i], namespaceIncluded) != Key(results[j], namespaceIncluded))
  }

  ghost predicate InConfig(u: Unicode, config: map<string, Fields>, s: Service) {
    exists raw :: raw in config && Read(u, raw, config[raw]) == Found(s)
  }

  predicate HasKey(results: seq<Service>, namespaceIncluded: bool, key: string) {
    exists i :: 0 <= i < |results| && Key(results[i], namespaceIncluded) == key
  }

  ghost predicate SomeCrash(u: Unicode, config: map<string, Fields>) {
    exists raw :: raw in config && Read(u, raw, config[raw]).Crash?
  }

  // The services found so far, under their keys.
  ghost predicate Gathered(u: Unicode, config: map<string, Fields>, namespaceIncluded: bool, rest: set<string>,
                           services: map<string, Service>) {
    && (forall key <- services :: Key(services[key], namespaceIncluded) == key && InConfig(u, config, services[key]))
    && (forall raw :: raw in config && raw !in rest ==>
          !Read(u, raw, config[raw]).Crash? &&
          (Read(u, raw, config[raw]).Found? ==> Key(Read(u, raw, config[raw]).service, namespaceIncluded) in services))
  }

  // ParseNerveConfig on a decoded configuration, in any map order.
  method ParseNerveConfig(u: Unicode, config: map<string, Fields>, namespaceIncluded: bool)
    returns (panicked: bool, results: seq<Service>)
    ensures panicked == SomeCrash(u, config)
    ensures !panicked ==> IsReading(u, config, namespaceIncluded, results)
  {
    results := [];
    var services: map<string, Service> := map[];
    var rest := config.Keys;
    while rest != {}
      invariant rest <= config.Keys
      invariant Gathered(u, config, namespaceIncluded, rest, services)
      decreases |rest|
    {
      var raw :| raw in rest;
      var outcome := Read(u, raw, config[raw]);
      if outcome.Crash? {
        return true, [];
      }
      if outcome.Found? {
        services := services[Key(outcome.service, namespaceIncluded) := outcome.service];
      }
      rest := rest - {raw};
    }
    panicked := false;
    ghost var keys;
    results, keys := ListValues(services);
    ListedIsReading(u, config, namespaceIncluded, services, results, keys);
  }

  method ListValues(services: map<string, Service>) returns (results: seq<Service>, ghost keys: seq<string>)
    ensures |keys| == |results| && forall i :: 0 <= i < |keys| ==>
              keys[i] in services && results[i] == services[keys[i]]
    ensures forall key :: key in services ==> key in keys
    ensures forall i, j :: 0 <= i < j < |keys| ==> keys[i] != keys[j]
  {
    results := [];
    keys := [];
    var rest := services.Keys;
    while rest != {}
      invariant rest <= services.Keys && |keys| == |results|
      invariant forall i :: 0 <= i < |keys| ==>
                  keys[i] in services && keys[i] !in rest && results[i] == services[keys[i]]
      invariant forall key :: key in services && key !in rest ==> key in keys
      invariant forall i, j :: 0 <= i < j < |keys| ==> keys[i] != keys[j]
      decreases |rest|
    {
      var key :| key in rest;
      results, keys, rest := results + [services[key]], keys + [key], rest - {key};
    }
  }

  lemma ListedIsReading(u: Unicode, config: map<string, Fields>, namespaceIncluded: bool,
                        services: map<string, Service>, results: seq<Service>, keys: seq<string>)
    requires Gathered(u, config, namespaceIncluded, {}, services) && |keys| == |results|
    requires forall i :: 0 <= i < |keys| ==> keys[i] in services && results[i] == services[keys[i]]
    requires forall key :: key in services ==> key in keys
    requires forall i, j :: 0 <= i < j < |keys| ==> keys[i] != keys[j]
    ensures IsReading(u, config, namespaceIncluded, results)
  {
    forall key | key in services ensures HasKey(results, namespaceIncluded, key) {
      var i :| 0 <= i < |keys| && keys[i] == key;
      assert Key(results[i], namespaceIncluded) == key;
    }
  }

  // ---- Keys ----

  lemma {:induction false} ColonSplits(a: string, m: string, b: string, n: string)
    requires a + ":" + m == b + ":" + n && ':' !in m && ':' !in n
    ensures a == b && m == n
  {
    var x, y := a + ":" + m, b + ":" + n;
    assert x[|a|] == ':' && y[|b|] == ':';
    forall i | |a| < i < |x| ensures x[i] != ':' {
      assert x[i] == m[i - |a| - 1];
    }
    forall i | |b| < i < |y| ensures y[i] != ':' {
      assert y[i] == n[i - |b| - 1];
    }
    assert a == x[..|a|] && b == y[..|b|] && m == x[|a| + 1..] && n == y[|b| + 1..];
  }

  // Services share a key exactly when they agree on the port and on the name;
  // with namespaces only name and namespace run together must agree.
  lemma SameKeyExactlyWhen(s: Service, t: Service)
    ensures Key(s, false) == Key(t, false) <==> s.name == t.name && s.port == t.port
    ensures Key(s, true) == Key(t, true) <==> s.name + s.namespace == t.name + t.namespace && s.port == t.port
  {
    ItoaHasNoColon(s.port);
    ItoaHasNoColon(t.port);
    if Key(s, false) == Key(t, false) {
      ColonSplits(s.name, Itoa(s.port), t.name, Itoa(t.port));
      ItoaIsInjective(s.port, t.port);
    }
    if Key(s, true) == Key(t, true) {
      ColonSplits(s.name + s.namespace, Itoa(s.port), t.name + t.namespace, Itoa(t.port));
      ItoaIsInjective(s.port, t.port);
    }
  }

  // So without namespaces no name and port come up twice.
  lemma NoNameAndPortTwice(u: Unicode, config: map<string, Fields>, results: seq<Service>, i: nat, j: nat)
    requires IsReading(u, config, false, results) && i < j < |results|
    ensures (results[i].name, results[i].port) != (results[j].name, results[j].port)
  {
    SameKeyExactlyWhen(results[i], results[j]);
  }

  // ---- The configuration for local services ----

  function Uri(raw: string, port: string): string {
    "/http/" + raw + "/" + port + "/status"
  }

  function Entry(raw: string, e: EndPoint): Fields {
    map["host" := Str(e.host), "port" := Str(e.port), "checks" := List([Object(map["uri" := Str(Uri(raw, e.port))])])]
  }

  // An entry has three fields: host and port as they are, and one check, whose uri
  // names the service and its port.
  lemma EntryMeans(raw: string, e: EndPoint)
    ensures Entry(raw, e).Keys == {"host", "port", "checks"}
    ensures Entry(raw, e)["host"] == Str(e.host) && Entry(raw, e)["port"] == Str(e.port)
    ensures Entry(raw, e)["checks"] == List([Object(map["uri" := Str("/http/" + raw + "/" + e.port + "/status")])])
  {
  }

  method CreateMinimalNerveConfig(config: map<string, EndPoint>) returns (services: map<string, Fields>)
    ensures services == map raw <- config :: Entry(raw, config[raw])
  {
    services := map[];
    var rest := config.Keys;
    while rest != {}
      invariant rest <= config.Keys
      invariant services == map raw | raw in config && raw !in rest :: Entry(raw, config[raw])
      decreases |rest|
    {
      var raw :| raw in rest;
      services := services[raw := Entry(raw, config[raw])];
      rest := rest - {raw};
    }
  }

  // ---- Reading it back ----

  lemma UriHead()
    ensures Split("/http", '/') == ["", "http"]
  {
    SplitPiece("", '/');
    SplitPiece("http", '/');
    SplitSep("", '/', "http");
    assert "" + ['/'] + "http" == "/http";
  }

  lemma UriPieces(raw: string, port: string)
    ensures Split(Uri(raw, port), '/') == ["", "http"] + Split(raw, '/') + Split(port, '/') + ["status"]
  {
    UriShape(raw, port);
    UriHead();
    SplitSep("/http", '/', raw);
    SplitSep("/http" + ['/'] + raw, '/', port);
    SplitSnoc("/http" + ['/'] + raw + ['/'] + port, '/', "status");
  }

  lemma UriShape(raw: string, port: string)
    ensures Uri(raw, port) == "/http" + ['/'] + raw + ['/'] + port + ['/'] + "status"
  {
    assert "/http/" == "/http" + ['/'] && "/status" == ['/'] + "status" && "/" == ['/'];
    assert Uri(raw, port) == "/http/" + raw + ['/'] + port + "/status";
  }

  // The text the reader takes for the port of a written service.
  function PortText(raw: string, port: string): string {
    var r := Split(raw, '/');
    if |r| > 1 then r[1] else Split(port, '/')[0]
  }

  lemma EntryPort(u: Unicode, raw: string, e: EndPoint)
    requires Standard(u)
    ensures ExtractPort(u, Entry(raw, e)) ==
            var n := ParseInt(PortText(raw, e.port));
            if n.None? || n == Some(-1) then NoPort else Port(n.value)
  {
    UriPieces(raw, e.port);
    var pieces := Split(Uri(raw, e.port), '/');
    assert pieces[1] == "http" && pieces[3] == PortText(raw, e.port) && |pieces| > 3;
    assert TrimSpace(u, "http") == "http" && Contains("http", "http");
  }

  // What a service is meant to be read as.
  ghost predicate Means(u: Unicode, raw: string, e: EndPoint, s: Service) {
    && |Split(raw, '.')| >= 2 && s.name == Split(raw, '.')[0] && s.namespace == Split(raw, '.')[1]
    && s.host == e.host && ParseInt(e.port) == Some(s.port)
  }

  lemma NumbersHaveNoSlash(s: string)
    requires ParseInt(s).Some?
    ensures '/' !in s
  {
    if !AllDigits(s) {
      assert s == [s[0]] + s[1..];
      assert forall i :: 0 <= i < |s[1..]| ==> Digit(s[1..][i]);
    }
  }

  // Its name has a dot, its host no blanks around it, its port is a number other
  // than -1, and a slash in its name (if any) is followed by that number again.
  predicate WellFormed(u: Unicode, raw: string, e: EndPoint) {
    && '.' in raw && TrimSpace(u, e.host) == e.host
    && ParseInt(e.port).Some? && ParseInt(e.port) != Some(-1)
    && (|Split(raw, '/')| >= 2 ==> ParseInt(Split(raw, '/')[1]) == ParseInt(e.port))
  }

  // A written service reads back as what it means, exactly when it is well formed.
  lemma EntryReadsBackExactlyWhen(u: Unicode, raw: string, e: EndPoint)
    requires Standard(u)
    ensures (exists s :: Read(u, raw, Entry(raw, e)) == Found(s) && Means(u, raw, e, s)) <==>
            WellFormed(u, raw, e)
  {
    EntryPort(u, raw, e);
    SplitCounts(raw, '.');
    SplitCounts(raw, '/');
    SplitCounts(e.port, '/');
    if ParseInt(e.port).Some? {
      NumbersHaveNoSlash(e.port);
    }
    if Read(u, raw, Entry(raw, e)).Found? {
      var s := Read(u, raw, Entry(raw, e)).service;
      assert s.host == TrimSpace(u, e.host);
    }
  }

  // ---- Writing and reading a whole configuration ----

  function Written(config: map<string, EndPoint>): map<string, Fields> {
    map raw <- config :: Entry(raw, config[raw])
  }

  function Expected(raw: string, e: EndPoint): Service {
    var parts := Split(raw, '.');
    var n := ParseInt(e.port);
    Service(parts[0], if |parts| >= 2 then parts[1] else "", e.host, if n.Some? then n.value else 0)
  }

  lemma EntryGivesExpected(u: Unicode, raw: string, e: EndPoint)
    requires Standard(u) && WellFormed(u, raw, e)
    ensures Read(u, raw, Entry(raw, e)) == Found(Expected(raw, e))
  {
    EntryReadsBackExactlyWhen(u, raw, e);
  }

  // The services a configuration stands for, by their full names.
  function Services(config: map<string, EndPoint>): map<string, Service> {
    map raw <- config :: Expected(raw, config[raw])
  }

  ghost predicate Among(services: map<string, Service>, s: Service) {
    exists raw :: raw in services && services[raw] == s
  }

  ghost predicate KeysApart(services: map<string, Service>, namespaceIncluded: bool) {
    forall a, b :: a in services && b in services && services[a] != services[b] ==>
      Key(services[a], namespaceIncluded) != Key(services[b], namespaceIncluded)
  }

  ghost predicate AllRead(services: map<string, Service>, results: seq<Service>) {
    forall raw :: raw in services ==> services[raw] in results
  }

  // IsReading, for a configuration all of whose services can be read.
  ghost predicate Selects(services: map<string, Service>, namespaceIncluded: bool, results: seq<Service>) {
    && (forall i :: 0 <= i < |results| ==> Among(services, results[i]))
    && (forall raw :: raw in services ==> HasKey(results, namespaceIncluded, Key(services[raw], namespaceIncluded)))
    && (forall i, j :: 0 <= i < j < |results| ==>
        Key(results[i], namespaceIncluded) != Key(results[j], namespaceIncluded))
  }

  lemma ReadingSelects(u: Unicode, config: map<string, EndPoint>, namespaceIncluded: bool, results: seq<Service>)
    requires Standard(u) && forall raw :: raw in config ==> WellFormed(u, raw, config[raw])
    requires IsReading(u, Written(config), namespaceIncluded, results)
    ensures !SomeCrash(u, Written(config)) && Selects(Services(config), namespaceIncluded, results)
  {
    var written := Written(config);
    forall raw | raw in config ensures Read(u, raw, written[raw]) == Found(Expected(raw, config[raw])) {
      EntryGivesExpected(u, raw, config[raw]);
    }
    forall i | 0 <= i < |results| ensures Among(Services(config), results[i]) {
      assert InConfig(u, written, results[i]);
      var raw :| raw in written && Read(u, raw, written[raw]) == Found(results[i]);
      assert Services(config)[raw] == results[i];
    }
  }

  lemma AllReadKeepsApart(services: map<string, Service>, namespaceIncluded: bool, results: seq<Service>, a: string,
                          b: string)
    requires Selects(services, namespaceIncluded, results) && AllRead(services, results)
    requires a in services && b in services && services[a] != services[b]
    ensures Key(services[a], namespaceIncluded) != Key(services[b], namespaceIncluded)
  {
    var i :| 0 <= i < |results| && results[i] == services[a];
    var j :| 0 <= j < |results| && results[j] == services[b];
    assert i < j || j < i;
  }

  lemma ApartMeansRead(services: map<string, Service>, namespaceIncluded: bool, results: seq<Service>, raw: string)
    requires Selects(services, namespaceIncluded, results) && KeysApart(services, namespaceIncluded) && raw in services
    ensures services[raw] in results
  {
    assert HasKey(results, namespaceIncluded, Key(services[raw], namespaceIncluded));
    var i :| 0 <= i < |results| && Key(results[i], namespaceIncluded) == Key(services[raw], namespaceIncluded);
    assert Among(services, results[i]) && results[i] in results;
  }

  lemma SelectsAllExactlyWhen(services: map<string, Service>, namespaceIncluded: bool, results: seq<Service>)
    requires Selects(services, namespaceIncluded, results)
    ensures AllRead(services, results) <==> KeysApart(services, namespaceIncluded)
  {
    if AllRead(services, results) {
      forall a, b | a in services && b in services && services[a] != services[b]
        ensures Key(services[a], namespaceIncluded) != Key(services[b], namespaceIncluded)
      {
        AllReadKeepsApart(services, namespaceIncluded, results, a, b);
      }
    }
    if KeysApart(services, namespaceIncluded) {
      forall raw | raw in services ensures services[raw] in results {
        ApartMeansRead(services, namespaceIncluded, results, raw);
      }
    }
  }

  // Reading what was written never makes services up, and gives every service
  // back exactly when no two different ones share a key.
  lemma RoundTrip(u: Unicode, config: map<string, EndPoint>, namespaceIncluded: bool, results: seq<Service>)
    requires Standard(u) && forall raw :: raw in config ==> WellFormed(u, raw, config[raw])
    requires IsReading(u, Written(config), namespaceIncluded, results)
    ensures !SomeCrash(u, Written(config))
    ensures forall i :: 0 <= i < |results| ==> Among(Services(config), results[i])
    ensures AllRead(Services(config), results) <==> KeysApart(Services(config), namespaceIncluded)
  {
    ReadingSelects(u, config, namespaceIncluded, results);
    SelectsAllExactlyWhen(Services(config), namespaceIncluded, results);
  }

  // Two services at one place whose names differ in where a dot stands.
  ghost predicate SameButForTheDot(x: string, y: string, a: string, b: string, c: string, d: string) {
    && x == a + "." + b && y == c + "." + d && a + b == c + d && a != c
    && Free([a, b, c, d], '.') && Free([a, b, c, d], '/')
  }

  lemma NameParts(x: string, a: string, b: string)
    requires x == a + "." + b && Free([a, b], '.') && Free([a, b], '/')
    ensures Split(x, '.') == [a, b] && '.' in x && Split(x, '/') == [x]
  {
    assert '.' !in [a, b][0] && '.' !in [a, b][1] && '/' !in [a, b][0] && '/' !in [a, b][1];
    assert x == a + ['.'] + b && x[|a|] == '.';
    SplitSnoc(a, '.', b);
    SplitPiece(a, '.');
    SplitPiece(x, '/');
  }

  lemma TwoNames(x: string, y: string, a: string, b: string, c: string, d: string)
    requires SameButForTheDot(x, y, a, b, c, d)
    ensures Split(x, '.') == [a, b] && '.' in x && Split(x, '/') == [x]
    ensures Split(y, '.') == [c, d] && '.' in y && Split(y, '/') == [y]
    ensures x != y
  {
    var all := [a, b, c, d];
    assert forall i :: 0 <= i < 4 ==> '.' !in all[i] && '/' !in all[i];
    assert all[0] == a && all[1] == b && all[2] == c && all[3] == d;
    NameParts(x, a, b);
    NameParts(y, c, d);
    assert [a, b][0] != [c, d][0];
  }

  lemma OneKeyForBoth(a: string, b: string, c: string, d: string, host: string, n: int)
    requires a + b == c + d && a != c
    ensures Key(Service(a, b, host, n), true) == Key(Service(c, d, host, n), true)
    ensures Key(Service(a, b, host, n), false) != Key(Service(c, d, host, n), false)
  {
    SameKeyExactlyWhen(Service(a, b, host, n), Service(c, d, host, n));
  }

  lemma OneKeyOneResult(services: map<string, Service>, results: seq<Service>, raw: string)
    requires Selects(services, true, results) && raw in services
    requires forall a :: a in services ==> Key(services[a], true) == Key(services[raw], true)
    ensures |results| == 1
  {
    assert HasKey(results, true, Key(services[raw], true));
    forall i | 0 <= i < |results| ensures Key(results[i], true) == Key(services[raw], true) {
      assert Among(services, results[i]);
    }
    assert Key(results[0], true) == Key(results[|results| - 1], true);
  }

  lemma PairApart(services: map<string, Service>, x: string, y: string, namespaceIncluded: bool)
    requires forall raw :: raw in services <==> raw == x || raw == y
    requires Key(services[x], namespaceIncluded) != Key(services[y], namespaceIncluded)
    ensures KeysApart(services, namespaceIncluded)
  {
    forall a, b | a in services && b in services && services[a] != services[b]
      ensures Key(services[a], namespaceIncluded) != Key(services[b], namespaceIncluded)
    {
      assert (a == x && b == y) || (a == y && b == x);
    }
  }

  ghost predicate OneOfBoth(s: Service, t: Service, namespaceIncluded: bool, results: seq<Service>) {
    if namespaceIncluded then results == [s] || results == [t] else s in results && t in results
  }

  lemma PairIsRead(services: map<string, Service>, x: string, y: string, namespaceIncluded: bool, results: seq<Service>)
    requires forall raw :: raw in services <==> raw == x || raw == y
    requires Key(services[x], true) == Key(services[y], true) && Key(services[x], false) != Key(services[y], false)
    requires Selects(services, namespaceIncluded, results)
    ensures OneOfBoth(services[x], services[y], namespaceIncluded, results)
  {
    if namespaceIncluded {
      OneKeyOneResult(services, results, x);
      assert Among(services, results[0]);
    } else {
      PairApart(services, x, y, false);
      ApartMeansRead(services, false, results, x);
      ApartMeansRead(services, false, results, y);
    }
  }

  function Pair(x: string, y: string, e: EndPoint): map<string, EndPoint> {
    map[x := e, y := e]
  }

  lemma PairServices(x: string, y: string, e: EndPoint)
    ensures forall raw :: raw in Services(Pair(x, y, e)) <==> raw == x || raw == y
    ensures Services(Pair(x, y, e))[x] == Expected(x, e) && Services(Pair(x, y, e))[y] == Expected(y, e)
  {
  }

  // With namespaces, dots can hide where the name ends: of the two services written
  // every reading gives just one. Without, every reading gives both.
  lemma HiddenDotsCollide(u: Unicode, x: string, y: string, a: string, b: string, c: string, d: string, e: EndPoint,
                          namespaceIncluded: bool, results: seq<Service>)
    requires Standard(u) && TrimSpace(u, e.host) == e.host && ParseInt(e.port).Some? && ParseInt(e.port) != Some(-1)
    requires SameButForTheDot(x, y, a, b, c, d)
    requires IsReading(u, Written(Pair(x, y, e)), namespaceIncluded, results)
    ensures Expected(x, e) != Expected(y, e)
    ensures OneOfBoth(Expected(x, e), Expected(y, e), namespaceIncluded, results)
  {
    BothExpected(u, x, y, a, b, c, d, e);
    PairServices(x, y, e);
    PairSelects(u, x, y, e, namespaceIncluded, results);
    PairIsRead(Services(Pair(x, y, e)), x, y, namespaceIncluded, results);
  }

  lemma PairSelects(u: Unicode, x: string, y: string, e: EndPoint, namespaceIncluded: bool, results: seq<Service>)
    requires Standard(u) && WellFormed(u, x, e) && WellFormed(u, y, e)
    requires IsReading(u, Written(Pair(x, y, e)), namespaceIncluded, results)
    ensures Selects(Services(Pair(x, y, e)), namespaceIncluded, results)
  {
    ReadingSelects(u, Pair(x, y, e), namespaceIncluded, results);
  }

  lemma BothExpected(u: Unicode, x: string, y: string, a: string, b: string, c: string, d: string, e: EndPoint)
    requires TrimSpace(u, e.host) == e.host && ParseInt(e.port).Some? && ParseInt(e.port) != Some(-1)
    requires SameButForTheDot(x, y, a, b, c, d)
    ensures WellFormed(u, x, e) && WellFormed(u, y, e) && Expected(x, e) != Expected(y, e)
    ensures Key(Expected(x, e), true) == Key(Expected(y, e), true)
    ensures Key(Expected(x, e), false) != Key(Expected(y, e), false)
  {
    TwoNames(x, y, a, b, c, d);
    OneKeyForBoth(a, b, c, d, e.host, ParseInt(e.port).value);
  }

  // So it goes with "a.bc" and "ab.c".
  lemma NamespacesCanCollide(u: Unicode, e: EndPoint, namespaceIncluded: bool, results: seq<Service>)
    requires Standard(u) && TrimSpace(u, e.host) == e.host && ParseInt(e.port).Some? && ParseInt(e.port) != Some(-1)
    requires IsReading(u, Written(Pair("a.bc", "ab.c", e)), namespaceIncluded, results)
    ensures Expected("a.bc", e) != Expected("ab.c", e)
    ensures OneOfBoth(Expected("a.bc", e), Expected("ab.c", e), namespaceIncluded, results)
  {
    assert "a" + "." + "bc" == "a.bc" && "ab" + "." + "c" == "ab.c" && "a" + "bc" == "ab" + "c" && "a" != "ab";
    HiddenDotsCollide(u, "a.bc", "ab.c", "a", "bc", "ab", "c", e, namespaceIncluded, results);
  }
}
