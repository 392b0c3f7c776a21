/** The JSON form of the structure and of the coverage, as a tree: each node
    serialises itself into an object and rebuilds itself from one against
    its parent (a line against its method, a method against its class, a
    class against its package, a coverage record against the report's
    structure). Array order comes from hash-map and hash-set iteration and
    is taken from `Enumerate`. */
module Serial {
  import opened Util
  import opened Structure
  import opened Coverage
  import opened Session
  import opened Report

  /** A JSON value: what the text is parsed into and printed from. */
  datatype Json =
    | JNull
    | JBool(b: bool)
    | JInt(i: int)
    | JString(s: string)
    | JArray(items: seq<Json>)
    | JObject(fields: map<string, Json>)

  /** Decoding succeeds or fails with the message of the exception the
      reading code would raise. */
  type Outcome<T> = Result<T, string>

  /** The value under `key`; anything but an object holding the key fails. */
  function Field(j: Json, key: string): (r: Outcome<Json>)
    ensures r.Success? <==> j.JObject? && key in j.fields
    ensures r.Success? ==> r.value == j.fields[key]
  {
    if !j.JObject? then Failure("not a JSON object")
    else if key !in j.fields then Failure("JSONObject[\"" + key + "\"] not found.")
    else Success(j.fields[key])
  }

  function GetInt(j: Json, key: string): (r: Outcome<int>)
    ensures r.Success? <==> j.JObject? && key in j.fields && j.fields[key].JInt?
    ensures r.Success? ==> r.value == j.fields[key].i
  {
    var v :- Field(j, key);
    if v.JInt? then Success(v.i) else Failure("JSONObject[\"" + key + "\"] is not an int.")
  }

  function GetString(j: Json, key: string): (r: Outcome<string>)
    ensures r.Success? <==> j.JObject? && key in j.fields && j.fields[key].JString?
    ensures r.Success? ==> r.value == j.fields[key].s
  {
    var v :- Field(j, key);
    if v.JString? then Success(v.s) else Failure("JSONObject[\"" + key + "\"] is not a string.")
  }

  function GetArray(j: Json, key: string): (r: Outcome<seq<Json>>)
    ensures r.Success? <==> j.JObject? && key in j.fields && j.fields[key].JArray?
    ensures r.Success? ==> r.value == j.fields[key].items
  {
    var v :- Field(j, key);
    if v.JArray? then Success(v.items) else Failure("JSONObject[\"" + key + "\"] is not a JSONArray.")
  }

  // ---------------------------------------------------------------------
  // Maps written as arrays of their values

  /** The values of a map, each encoded, in iteration order. */
  ghost function EncodeValues<K(!new), V>(m: map<K, V>, enc: V -> Json): (r: seq<Json>)
    ensures |r| == |m|
  {
    var ks := Enumerate(m.Keys);
    seq(|ks|, i requires 0 <= i < |ks| => enc(m[ks[i]]))
  }

  /** Decodes the items in order and files each under its key; a later item
      with the same key replaces an earlier one, and the first failure
      ends the decoding. */
  function DecodeInto<K, V>(items: seq<Json>, acc: map<K, V>, dec: Json -> Outcome<V>, key: V -> K): Outcome<map<K, V>>
  {
    if items == [] then Success(acc)
    else
      var m :- DecodeInto(items[..|items| - 1], acc, dec, key);
      var v :- dec(items[|items| - 1]);
      Success(m[key(v) := v])
  }

  /** The part of `m` whose keys are listed. */
  function Restrict<K, V>(m: map<K, V>, ks: seq<K>): (r: map<K, V>)
    ensures r.Keys == m.Keys * (set k | k in ks)
  {
    map k | k in m && k in ks :: m[k]
  }

  /** Decoding the encoded values of the listed keys, each of which decodes
      back to itself and sits under its own key, rebuilds that part of the
      map. */
  lemma {:induction false} DecodeIntoRoundTrip<K, V>(m: map<K, V>, ks: seq<K>, enc: V -> Json, dec: Json -> Outcome<V>, key: V -> K)
    requires forall i | 0 <= i < |ks| :: ks[i] in m && dec(enc(m[ks[i]])) == Success(m[ks[i]]) && key(m[ks[i]]) == ks[i]
    ensures DecodeInto(seq(|ks|, i requires 0 <= i < |ks| => enc(m[ks[i]])), map[], dec, key) == Success(Restrict(m, ks))
    decreases |ks|
  {
    var items := seq(|ks|, i requires 0 <= i < |ks| => enc(m[ks[i]]));
    if ks != [] {
      var n := |ks| - 1;
      var init := ks[..n];
      assert items[..n] == seq(|init|, i requires 0 <= i < |init| => enc(m[init[i]]));
      DecodeIntoRoundTrip(m, init, enc, dec, key);
      assert Restrict(m, ks) == Restrict(m, init)[ks[n] := m[ks[n]]];
    }
  }

  /** Encoding every value of a map and decoding the result gives the map back. */
  lemma EncodeValuesRoundTrip<K(!new), V>(m: map<K, V>, enc: V -> Json, dec: Json -> Outcome<V>, key: V -> K)
    requires forall k | k in m :: dec(enc(m[k])) == Success(m[k]) && key(m[k]) == k
    ensures DecodeInto(EncodeValues(m, enc), map[], dec, key) == Success(m)
  {
    var ks := Enumerate(m.Keys);
    assert EncodeValues(m, enc) == seq(|ks|, i requires 0 <= i < |ks| => enc(m[ks[i]]));
    DecodeIntoRoundTrip(m, ks, enc, dec, key);
    var r := Restrict(m, ks);
    assert r.Keys == m.Keys;
    assert forall k | k in r :: r[k] == m[k];
    assert r == m;
  }

  // ---------------------------------------------------------------------
  // Lines

  function EncodeLine(l: Line): Json {
    JObject(map["lineNumber" := JInt(l.lineNumber), "instructions" := JInt(l.instructions), "branches" := JInt(l.branches)])
  }

  /** A line read back into the method with full name `owner`. */
  function DecodeLine(j: Json, owner: string): (r: Outcome<Line>)
    ensures r.Success? ==> r.value.owner == owner
  {
    var lineNumber :- GetInt(j, "lineNumber");
    var instructions :- GetInt(j, "instructions");
    var branches :- GetInt(j, "branches");
    Success(Line(owner, lineNumber, instructions, branches))
  }

  /** A line of a method reads back as itself into that method. */
  lemma LineRoundTrip(l: Line)
    ensures DecodeLine(EncodeLine(l), l.owner) == Success(l)
  {
  }

  /** Decoding a line in the context of a method: the line is built and
      registered in the method under its number, as the line constructor
      does. */
  lemma DecodeLineRegisters(j: Json, m: Method)
    requires DecodeLine(j, m.FullName()).Success?
    ensures NewLine(m, j.fields["lineNumber"].i, j.fields["instructions"].i, j.fields["branches"].i)
            == (m.AddLine(DecodeLine(j, m.FullName()).value), DecodeLine(j, m.FullName()).value)
  {
  }

  // ---------------------------------------------------------------------
  // Methods

  ghost function EncodeMethod(m: Method): Json {
    JObject(map[
      "signature" := JString(m.signature),
      "complexity" := JInt(m.complexity),
      "lines" := JArray(EncodeValues(m.lines, EncodeLine))])
  }

  function LineNumber(l: Line): int { l.lineNumber }

  /** A method read back into the class with full name `owner`: the method is
      created without lines and each line registers itself in turn. */
  function DecodeMethod(j: Json, owner: string): (r: Outcome<Method>)
    ensures r.Success? ==> r.value.owner == owner
  {
    var signature :- GetString(j, "signature");
    var complexity :- GetInt(j, "complexity");
    var items :- GetArray(j, "lines");
    var fullName := Method(owner, signature, 0, map[]).FullName();
    var lines :- DecodeInto(items, map[], (l: Json) => DecodeLine(l, fullName), LineNumber);
    Success(Method(owner, signature, complexity, lines))
  }

  /** A well-formed method reads back as itself into its class. */
  lemma MethodRoundTrip(m: Method)
    requires m.WellFormed()
    ensures DecodeMethod(EncodeMethod(m), m.owner) == Success(m)
  {
    var dec := (l: Json) => DecodeLine(l, m.FullName());
    forall n | n in m.lines
      ensures dec(EncodeLine(m.lines[n])) == Success(m.lines[n]) && LineNumber(m.lines[n]) == n
    {
      LineRoundTrip(m.lines[n]);
    }
    EncodeValuesRoundTrip(m.lines, EncodeLine, dec, LineNumber);
  }

  // ---------------------------------------------------------------------
  // Classes

  ghost function EncodeMethods(ms: seq<Method>): (r: seq<Json>)
    ensures |r| == |ms|
  {
    seq(|ms|, i requires 0 <= i < |ms| => EncodeMethod(ms[i]))
  }

  ghost function EncodeClass(c: Clazz): Json {
    JObject(map["name" := JString(c.name), "methods" := JArray(EncodeMethods(c.methods))])
  }

  /** Reads the methods in order into the class; a method equal to one
      already there is not added again. */
  function DecodeMethods(items: seq<Json>, c: Clazz): (r: Outcome<Clazz>)
    ensures r.Success? ==> r.value.owner == c.owner && r.value.name == c.name
  {
    if items == [] then Success(c)
    else
      var c' :- DecodeMethods(items[..|items| - 1], c);
      var m :- DecodeMethod(items[|items| - 1], c'.FullName());
      Success(c'.AddMethod(m))
  }

  /** A class read back into the package named `owner`: the class is created
      without methods and each method registers itself in turn. */
  function DecodeClass(j: Json, owner: string): (r: Outcome<Clazz>)
    ensures r.Success? ==> r.value.owner == owner
  {
    var name :- GetString(j, "name");
    var items :- GetArray(j, "methods");
    DecodeMethods(items, Clazz(owner, name, []))
  }

  lemma {:induction false} DecodeMethodsRoundTrip(owner: string, name: string, ms: seq<Method>)
    requires Distinct(ms)
    requires forall i | 0 <= i < |ms| :: ms[i].owner == owner + "." + name && ms[i].WellFormed()
    ensures DecodeMethods(EncodeMethods(ms), Clazz(owner, name, [])) == Success(Clazz(owner, name, ms))
    decreases |ms|
  {
    if ms != [] {
      var n := |ms| - 1;
      assert EncodeMethods(ms)[..n] == EncodeMethods(ms[..n]);
      DecodeMethodsRoundTrip(owner, name, ms[..n]);
      MethodRoundTrip(ms[n]);
      assert ms[n] !in ms[..n];
      assert ms[..n] + [ms[n]] == ms;
    }
  }

  /** A well-formed class whose methods are listed once reads back as itself
      into its package. */
  lemma ClassRoundTrip(c: Clazz)
    requires c.WellFormed() && Distinct(c.methods)
    ensures DecodeClass(EncodeClass(c), c.owner) == Success(c)
  {
    DecodeMethodsRoundTrip(c.owner, c.name, c.methods);
  }

  // ---------------------------------------------------------------------
  // Packages

  ghost function EncodeClasses(cs: seq<Clazz>): (r: seq<Json>)
    ensures |r| == |cs|
  {
    seq(|cs|, i requires 0 <= i < |cs| => EncodeClass(cs[i]))
  }

  ghost function EncodePackage(p: Package): Json {
    JObject(map["name" := JString(p.name), "classes" := JArray(EncodeClasses(p.classes))])
  }

  /** Reads the classes in order into the package; a class equal to one
      already there is not added again. */
  function DecodeClasses(items: seq<Json>, p: Package): (r: Outcome<Package>)
    ensures r.Success? ==> r.value.name == p.name
  {
    if items == [] then Success(p)
    else
      var p' :- DecodeClasses(items[..|items| - 1], p);
      var c :- DecodeClass(items[|items| - 1], p'.name);
      Success(p'.AddClass(c))
  }

  function DecodePackage(j: Json): Outcome<Package> {
    var name :- GetString(j, "name");
    var items :- GetArray(j, "classes");
    DecodeClasses(items, Package(name, []))
  }

  /** Every class of the package is well formed and lists its methods once,
      and no class is listed twice. */
  ghost predicate Serialisable(p: Package) {
    && p.WellFormed()
    && Distinct(p.classes)
    && forall c | c in p.classes :: Distinct(c.methods)
  }

  lemma {:induction false} DecodeClassesRoundTrip(name: string, cs: seq<Clazz>)
    requires Distinct(cs)
    requires forall i | 0 <= i < |cs| :: cs[i].owner == name && cs[i].WellFormed() && Distinct(cs[i].methods)
    ensures DecodeClasses(EncodeClasses(cs), Package(name, [])) == Success(Package(name, cs))
    decreases |cs|
  {
    if cs != [] {
      var n := |cs| - 1;
      assert EncodeClasses(cs)[..n] == EncodeClasses(cs[..n]);
      DecodeClassesRoundTrip(name, cs[..n]);
      ClassRoundTrip(cs[n]);
      assert cs[n] !in cs[..n];
      assert cs[..n] + [cs[n]] == cs;
    }
  }

  /** A serialisable package reads back as itself. */
  lemma PackageRoundTrip(p: Package)
    requires Serialisable(p)
    ensures DecodePackage(EncodePackage(p)) == Success(p)
  {
    forall i | 0 <= i < |p.classes|
      ensures p.classes[i].owner == p.name && p.classes[i].WellFormed() && Distinct(p.classes[i].methods)
    {
      assert p.classes[i] in p.classes;
    }
    DecodeClassesRoundTrip(p.name, p.classes);
  }

  // ---------------------------------------------------------------------
  // Coverage records

  function EncodeLineCoverage(lc: LineCoverage): Json {
    JObject(map[
      "lineNumber" := JInt(lc.line.lineNumber),
      "instructionsCovered" := JInt(lc.instructionsCovered),
      "branchesCovered" := JInt(lc.branchesCovered)])
  }

  /** A line coverage read against method `m`: the line is looked up by
      number. An unknown number leaves the record without a line, and filing
      that record by its line's number then fails. */
  function DecodeLineCoverage(j: Json, m: Method): (r: Outcome<LineCoverage>)
    ensures r.Success? ==> GetInt(j, "lineNumber").Success? && m.GetLine(GetInt(j, "lineNumber").value) == Some(r.value.line)
    ensures r.Success? ==> GetInt(j, "instructionsCovered") == Success(r.value.instructionsCovered)
    ensures r.Success? ==> GetInt(j, "branchesCovered") == Success(r.value.branchesCovered)
  {
    var lineNumber :- GetInt(j, "lineNumber");
    var instructionsCovered :- GetInt(j, "instructionsCovered");
    var branchesCovered :- GetInt(j, "branchesCovered");
    match m.GetLine(lineNumber)
    case None => Failure("no line " + IntToString(lineNumber) + " in " + m.FullName())
    case Some(line) => Success(LineCoverage(line, instructionsCovered, branchesCovered))
  }

  /** A record reads back as itself against a method that holds its line. */
  lemma LineCoverageRoundTrip(lc: LineCoverage, m: Method)
    requires m.GetLine(lc.line.lineNumber) == Some(lc.line)
    ensures DecodeLineCoverage(EncodeLineCoverage(lc), m) == Success(lc)
  {
  }

  /** A record whose line number is not a line of the method fails. */
  lemma UnknownLineFails(j: Json, m: Method)
    requires j.JObject? && "lineNumber" in j.fields && j.fields["lineNumber"].JInt?
    requires j.fields["lineNumber"].i !in m.lines
    ensures DecodeLineCoverage(j, m).Failure?
  {
  }

  function CoveredLineNumber(lc: LineCoverage): int { lc.line.lineNumber }

  ghost function EncodeMethodCoverage(mc: MethodCoverage): Json {
    JObject(map[
      "method" := JString(mc.target.FullName()),
      "coverage" := JArray(EncodeValues(mc.linesCovered, EncodeLineCoverage))])
  }

  /** Decodes one line coverage of a method. */
  function LineDecoder(m: Method): Json -> Outcome<LineCoverage> {
    (x: Json) => DecodeLineCoverage(x, m)
  }

  /** A method coverage read against the report's structure: the method is
      looked up by full name and each line coverage is filed under its
      line's number. An unknown method fails. */
  function DecodeMethodCoverage(j: Json, packages: seq<Package>): (r: Outcome<MethodCoverage>)
    ensures r.Success? ==> GetString(j, "method").Success?
    ensures r.Success? ==> MethodByFullName(packages, GetString(j, "method").value) == Some(r.value.target)
  {
    var name :- GetString(j, "method");
    var items :- GetArray(j, "coverage");
    match MethodByFullName(packages, name)
    case None => Failure("Could not find method: " + name)
    case Some(m) =>
      var lines :- DecodeInto(items, map[], LineDecoder(m), CoveredLineNumber);
      Success(MethodCoverage(m, lines))
  }

  /** Each covered line sits under its own number and is a line of the
      record's method. */
  ghost predicate LinesResolve(mc: MethodCoverage) {
    forall n | n in mc.linesCovered ::
      mc.linesCovered[n].line.lineNumber == n && mc.target.GetLine(n) == Some(mc.linesCovered[n].line)
  }

  /** A record reads back as itself against a structure in which its method's
      full name finds its method. */
  lemma MethodCoverageRoundTrip(mc: MethodCoverage, packages: seq<Package>)
    requires MethodByFullName(packages, mc.target.FullName()) == Some(mc.target)
    requires LinesResolve(mc)
    ensures DecodeMethodCoverage(EncodeMethodCoverage(mc), packages) == Success(mc)
  {
    var dec := LineDecoder(mc.target);
    forall n | n in mc.linesCovered
      ensures dec(EncodeLineCoverage(mc.linesCovered[n])) == Success(mc.linesCovered[n])
      ensures CoveredLineNumber(mc.linesCovered[n]) == n
    {
      LineCoverageRoundTrip(mc.linesCovered[n], mc.target);
    }
    EncodeValuesRoundTrip(mc.linesCovered, EncodeLineCoverage, dec, CoveredLineNumber);
    var j := EncodeMethodCoverage(mc);
    var items := EncodeValues(mc.linesCovered, EncodeLineCoverage);
    assert GetString(j, "method") == Success(mc.target.FullName());
    assert GetArray(j, "coverage") == Success(items);
    assert DecodeInto(items, map[], dec, CoveredLineNumber) == Success(mc.linesCovered);
  }

  // ---------------------------------------------------------------------
  // Sessions

  ghost function EncodeSession(id: string, c: Coverages): Json {
    JObject(map["id" := JString(id), "coverage" := JArray(EncodeValues(c, EncodeMethodCoverage))])
  }

  function TargetName(mc: MethodCoverage): string { mc.target.FullName() }

  /** Decodes one method coverage of a session against the registry. */
  function CoverageDecoder(packages: seq<Package>): Json -> Outcome<MethodCoverage> {
    (x: Json) => DecodeMethodCoverage(x, packages)
  }

  /** A session read against the report's structure: its id, and each record
      filed under its method's full name. */
  function DecodeSession(j: Json, packages: seq<Package>): (r: Outcome<(string, Coverages)>)
    ensures r.Success? ==> GetString(j, "id") == Success(r.value.0)
  {
    var id :- GetString(j, "id");
    var items :- GetArray(j, "coverage");
    var c :- DecodeInto(items, map[], CoverageDecoder(packages), TargetName);
    Success((id, c))
  }

  /** Every record of the session is filed under its method's full name, that
      name finds the method in the structure, and its lines are lines of the
      method. */
  ghost predicate Resolvable(packages: seq<Package>, c: Coverages) {
    forall k | k in c ::
      c[k].target.FullName() == k && MethodByFullName(packages, k) == Some(c[k].target) && LinesResolve(c[k])
  }

  /** A resolvable session reads back with its id and the same records. */
  lemma SessionRoundTrip(id: string, c: Coverages, packages: seq<Package>)
    requires Resolvable(packages, c)
    ensures DecodeSession(EncodeSession(id, c), packages) == Success((id, c))
  {
    var dec := CoverageDecoder(packages);
    var enc := EncodeMethodCoverage;
    forall k | k in c
      ensures dec(enc(c[k])) == Success(c[k]) && TargetName(c[k]) == k
    {
      assert c[k].target.FullName() == k && MethodByFullName(packages, k) == Some(c[k].target) && LinesResolve(c[k]);
      MethodCoverageRoundTrip(c[k], packages);
    }
    EncodeValuesRoundTrip(c, enc, dec, TargetName);
  }

  /** Decoding stops at the first item that fails. */
  lemma {:induction false} DecodeIntoPrefixFails<K, V>(items: seq<Json>, acc: map<K, V>, dec: Json -> Outcome<V>, key: V -> K, i: nat)
    requires i <= |items| && DecodeInto(items[..i], acc, dec, key).Failure?
    ensures DecodeInto(items, acc, dec, key).Failure?
    decreases |items|
  {
    if i < |items| {
      var n := |items| - 1;
      assert items[..n][..i] == items[..i];
      DecodeIntoPrefixFails(items[..n], acc, dec, key, i);
    } else {
      assert items[..i] == items;
    }
  }
  /** A failing item stops the fold. */
  lemma DecodeIntoStops<K, V>(items: seq<Json>, acc: map<K, V>, dec: Json -> Outcome<V>, key: V -> K, i: nat)
    requires i < |items| && dec(items[i]).Failure?
    ensures DecodeInto(items, acc, dec, key).Failure?
  {
    assert items[..i + 1][..i] == items[..i];
    assert items[..i + 1][i] == items[i];
    DecodeIntoPrefixFails(items, acc, dec, key, i + 1);
  }

  /** One more item of the fold stores its decoded value under its key. */
  lemma DecodeIntoSnoc<K, V>(items: seq<Json>, acc: map<K, V>, dec: Json -> Outcome<V>, key: V -> K, i: nat)
    requires i < |items| && DecodeInto(items[..i], acc, dec, key).Success? && dec(items[i]).Success?
    ensures DecodeInto(items[..i + 1], acc, dec, key) ==
              Success(DecodeInto(items[..i], acc, dec, key).value[key(dec(items[i]).value) := dec(items[i]).value])
  {
    assert items[..i + 1][..i] == items[..i];
  }


  /** JacocoSession.deserialize: the session is created with its id, then
      each record is read and filed by addCoverage. */
  method DeserializeSession(j: Json, packages: seq<Package>) returns (r: Outcome<JacocoSession>)
    ensures r.Success? <==> DecodeSession(j, packages).Success?
    ensures r.Success? ==> fresh(r.value)
    ensures r.Success? ==> r.value.id == DecodeSession(j, packages).value.0
    ensures r.Success? ==> r.value.coverage == DecodeSession(j, packages).value.1
  {
    var id :- GetString(j, "id");
    var s := new JacocoSession(id);
    var items :- GetArray(j, "coverage");
    ghost var dec := CoverageDecoder(packages);
    for i := 0 to |items|
      invariant DecodeInto(items[..i], map[], dec, TargetName) == Success(s.coverage)
    {
      var mc := DecodeMethodCoverage(items[i], packages);
      assert dec(items[i]) == mc;
      if mc.Failure? {
        DecodeIntoStops(items, map[], dec, TargetName, i);
        return Failure(mc.error);
      }
      DecodeIntoSnoc(items, map[], dec, TargetName, i);
      s.AddCoverage(mc.value);
    }
    assert items[..|items|] == items;
    r := Success(s);
  }


  // ---------------------------------------------------------------------
  // Reports

  ghost function EncodePackages(ps: seq<Package>): (r: seq<Json>)
    ensures |r| == |ps|
  {
    seq(|ps|, i requires 0 <= i < |ps| => EncodePackage(ps[i]))
  }

  /** A session entry of the report: the id and the coverage. */
  type Entry = (string, Coverages)

  ghost function EncodeSessions(es: seq<Entry>): (r: seq<Json>)
    ensures |r| == |es|
  {
    seq(|es|, i requires 0 <= i < |es| => EncodeSession(es[i].0, es[i].1))
  }

  /** The report as JSON: its packages, then its sessions in the order the
      report hands them out. */
  ghost function EncodeReport(packages: seq<Package>, es: seq<Entry>): Json {
    JObject(map["packages" := JArray(EncodePackages(packages)), "sessions" := JArray(EncodeSessions(es))])
  }

  /** Decodes the items in order, keeping every result; the first failure
      ends the decoding. */
  function DecodeAll<T>(items: seq<Json>, dec: Json -> Outcome<T>): (r: Outcome<seq<T>>)
    ensures r.Success? ==> |r.value| == |items|
    ensures r.Success? ==> forall i | 0 <= i < |items| :: dec(items[i]) == Success(r.value[i])
  {
    if items == [] then Success([])
    else
      var init :- DecodeAll(items[..|items| - 1], dec);
      var last :- dec(items[|items| - 1]);
      Success(init + [last])
  }

  lemma {:induction false} DecodeAllPrefixFails<T>(items: seq<Json>, dec: Json -> Outcome<T>, i: nat)
    requires i <= |items| && DecodeAll(items[..i], dec).Failure?
    ensures DecodeAll(items, dec).Failure?
    decreases |items|
  {
    if i < |items| {
      var n := |items| - 1;
      assert items[..n][..i] == items[..i];
      DecodeAllPrefixFails(items[..n], dec, i);
    } else {
      assert items[..i] == items;
    }
  }

  /** An item that cannot be decoded makes the whole decoding fail. */
  lemma DecodeAllStops<T>(items: seq<Json>, dec: Json -> Outcome<T>, i: nat)
    requires i < |items| && dec(items[i]).Failure?
    ensures DecodeAll(items, dec).Failure?
  {
    assert items[..i + 1][..i] == items[..i];
    assert items[..i + 1][i] == items[i];
    DecodeAllPrefixFails(items, dec, i + 1);
  }

  /** Decoding one more item appends its value. */
  lemma DecodeAllSnoc<T>(items: seq<Json>, dec: Json -> Outcome<T>, i: nat)
    requires i < |items| && DecodeAll(items[..i], dec).Success? && dec(items[i]).Success?
    ensures DecodeAll(items[..i + 1], dec) == Success(DecodeAll(items[..i], dec).value + [dec(items[i]).value])
  {
    assert items[..i + 1][..i] == items[..i];
  }

  /** Items that each decode to the listed value decode to the list. */
  lemma {:induction false} DecodeAllRoundTrip<T>(items: seq<Json>, dec: Json -> Outcome<T>, vs: seq<T>)
    requires |items| == |vs| && forall i | 0 <= i < |items| :: dec(items[i]) == Success(vs[i])
    ensures DecodeAll(items, dec) == Success(vs)
    decreases |items|
  {
    if items != [] {
      var n := |items| - 1;
      DecodeAllRoundTrip(items[..n], dec, vs[..n]);
      assert vs[..n] + [vs[n]] == vs;
    }
  }

  /** importReport as a value: the packages first, then each session read
      against them. */
  function DecodeReport(j: Json): Outcome<(seq<Package>, seq<Entry>)> {
    var packageItems :- GetArray(j, "packages");
    var packages :- DecodeAll(packageItems, DecodePackage);
    var sessionItems :- GetArray(j, "sessions");
    var es :- DecodeAll(sessionItems, SessionDecoder(packages));
    Success((packages, es))
  }

  /** Reads one session against the given packages. */
  function SessionDecoder(packages: seq<Package>): Json -> Outcome<Entry> {
    (x: Json) => DecodeSession(x, packages)
  }

  /** The ids and coverages a report holds after adding the sessions in turn:
      a repeated id replaces the coverage and keeps its first place. */
  function FileSessions(es: seq<Entry>): (r: (seq<string>, map<string, Coverages>))
    ensures forall id :: id in r.0 <==> id in r.1
  {
    if es == [] then ([], map[])
    else
      var prev := FileSessions(es[..|es| - 1]);
      var (id, c) := es[|es| - 1];
      (if id in prev.1 then prev.0 else prev.0 + [id], prev.1[id := c])
  }

  /** The report's sessions as they stand: the coverage of each session,
      under its id. */
  function CoverageById(sessions: map<string, JacocoSession>): map<string, Coverages>
    reads sessions.Values
  {
    map id | id in sessions :: sessions[id].coverage
  }

  /** Reading one more session: a new id joins the order, and the id's
      coverage is the last one read. */
  lemma FileSessionsSnoc(es: seq<Entry>, e: Entry)
    ensures FileSessions(es + [e]).0 ==
              if e.0 in FileSessions(es).1 then FileSessions(es).0 else FileSessions(es).0 + [e.0]
    ensures FileSessions(es + [e]).1 == FileSessions(es).1[e.0 := e.1]
  {
    assert (es + [e])[..|es|] == es;
  }

  lemma CoverageByIdIs(sessions: map<string, JacocoSession>, c: map<string, Coverages>)
    requires sessions.Keys == c.Keys
    requires forall id | id in sessions :: sessions[id].coverage == c[id]
    ensures CoverageById(sessions) == c
  {
    assert CoverageById(sessions).Keys == c.Keys;
  }

  /** A report whose packages and sessions can be written reads back as
      the same packages and the same session entries. */
  lemma ReportRoundTrip(packages: seq<Package>, es: seq<Entry>)
    requires forall p | p in packages :: Serialisable(p)
    requires forall e | e in es :: Resolvable(packages, e.1)
    ensures DecodeReport(EncodeReport(packages, es)) == Success((packages, es))
  {
    var j := EncodeReport(packages, es);
    assert GetArray(j, "packages") == Success(EncodePackages(packages));
    forall i | 0 <= i < |packages|
      ensures DecodePackage(EncodePackages(packages)[i]) == Success(packages[i])
    {
      PackageRoundTrip(packages[i]);
    }
    DecodeAllRoundTrip(EncodePackages(packages), DecodePackage, packages);
    assert GetArray(j, "sessions") == Success(EncodeSessions(es));
    var dec := SessionDecoder(packages);
    forall i | 0 <= i < |es|
      ensures dec(EncodeSessions(es)[i]) == Success(es[i])
    {
      assert es[i] in es;
      SessionRoundTrip(es[i].0, es[i].1, packages);
    }
    DecodeAllRoundTrip(EncodeSessions(es), dec, es);
  }

  /** The sessions filed under `order`, as the report writes them out: each
      id with its coverage. */
  function SessionEntries(order: seq<string>, c: map<string, Coverages>): (r: seq<Entry>)
    requires forall id | id in order :: id in c
    ensures |r| == |order|
    ensures forall i | 0 <= i < |order| :: r[i] == (order[i], c[order[i]])
  {
    seq(|order|, i requires 0 <= i < |order| => (order[i], c[order[i]]))
  }

  /** Reading back sessions written once each, in order, restores the order
      and the coverage of every id. */
  lemma SessionEntriesSnoc(order: seq<string>, c: map<string, Coverages>)
    requires order != [] && forall id | id in order :: id in c
    ensures SessionEntries(order, c) ==
              SessionEntries(order[..|order| - 1], c) + [(order[|order| - 1], c[order[|order| - 1]])]
  {
  }

  lemma {:induction false} FileSessionsOfEntries(order: seq<string>, c: map<string, Coverages>)
    requires Distinct(order) && forall id | id in order :: id in c
    ensures FileSessions(SessionEntries(order, c)).0 == order
    ensures forall id | id in order :: FileSessions(SessionEntries(order, c)).1[id] == c[id]
    decreases |order|
  {
    if order != [] {
      var n := |order| - 1;
      var init, last := order[..n], order[n];
      FileSessionsOfEntries(init, c);
      var es0 := SessionEntries(init, c);
      var e := (last, c[last]);
      SessionEntriesSnoc(order, c);
      FileSessionsSnoc(es0, e);
      var prev := FileSessions(es0);
      assert last !in init;
      assert last !in prev.1;
      assert init + [last] == order;
    }
  }

  /** Sessions written once each under every id of the map read back as
      the same order and the same map. */
  lemma FileSessionsRestore(order: seq<string>, c: map<string, Coverages>)
    requires Distinct(order) && forall id :: id in order <==> id in c
    ensures FileSessions(SessionEntries(order, c)) == (order, c)
  {
    FileSessionsOfEntries(order, c);
    var fs := FileSessions(SessionEntries(order, c)).1;
    assert fs.Keys == c.Keys;
    assert fs == c;
  }

  lemma EntriesResolvable(packages: seq<Package>, order: seq<string>, c: map<string, Coverages>)
    requires forall id | id in c :: Resolvable(packages, c[id])
    requires forall id | id in order :: id in c
    ensures forall e | e in SessionEntries(order, c) :: Resolvable(packages, e.1)
  {
    var es := SessionEntries(order, c);
    forall e | e in es
      ensures Resolvable(packages, e.1)
    {
      var i :| 0 <= i < |es| && es[i] == e;
      assert order[i] in c;
    }
  }

  /** serialize: the report as JSON, its packages, then its sessions in the
      order their ids were first added. */
  ghost function Serialize(report: JacocoCoverageReport): Json
    reads report, report.sessions.Values
    requires report.Valid()
  {
    EncodeReport(report.packages, SessionEntries(report.order, CoverageById(report.sessions)))
  }

  /** Writing a report out and importing it again gives back its packages,
      its ids in order, and the coverage of every session, whenever its
      packages and sessions can be written. */
  lemma ExportImport(report: JacocoCoverageReport)
    requires report.Valid()
    requires forall p | p in report.packages :: Serialisable(p)
    requires forall id | id in report.sessions :: Resolvable(report.packages, report.sessions[id].coverage)
    ensures DecodeReport(Serialize(report)).Success?
    ensures DecodeReport(Serialize(report)).value.0 == report.packages
    ensures FileSessions(DecodeReport(Serialize(report)).value.1) == (report.order, CoverageById(report.sessions))
  {
    var c := CoverageById(report.sessions);
    var es := SessionEntries(report.order, c);
    EntriesResolvable(report.packages, report.order, c);
    ReportRoundTrip(report.packages, es);
    FileSessionsRestore(report.order, c);
  }

  /** The report holds the ids and coverages that reading the given
      sessions in turn leaves. */
  ghost predicate Mirrors(report: JacocoCoverageReport, es: seq<Entry>)
    reads report, report.sessions.Values
  {
    && report.order == FileSessions(es).0
    && report.sessions.Keys == FileSessions(es).1.Keys
    && forall id | id in report.sessions :: report.sessions[id].coverage == FileSessions(es).1[id]
  }

  /** One turn of the session loop of importReport: reads a session and adds
      it to the report. */
  method ReadSession(report: JacocoCoverageReport, j: Json, ghost es: seq<Entry>) returns (failure: Option<string>)
    requires report.Valid() && Mirrors(report, es)
    modifies report
    ensures report.Valid()
    ensures failure.None? <==> DecodeSession(j, report.packages).Success?
    ensures failure.None? ==> Mirrors(report, es + [DecodeSession(j, report.packages).value])
  {
    var s := DeserializeSession(j, report.packages);
    if s.Failure? {
      return Some(s.error);
    }
    FileSessionsSnoc(es, DecodeSession(j, report.packages).value);
    report.AddSession(s.value);
    return None;
  }

  /** The session loop of importReport: reads each session and adds it to
      the report, stopping at the first one that cannot be read. */
  method AddSessionsFrom(report: JacocoCoverageReport, items: seq<Json>) returns (failure: Option<string>)
    requires report.Valid() && report.order == [] && report.sessions == map[]
    modifies report
    ensures report.Valid()
    ensures failure.None? <==> DecodeAll(items, SessionDecoder(report.packages)).Success?
    ensures failure.None? ==> report.order == FileSessions(DecodeAll(items, SessionDecoder(report.packages)).value).0
    ensures failure.None? ==> CoverageById(report.sessions) == FileSessions(DecodeAll(items, SessionDecoder(report.packages)).value).1
  {
    ghost var dec := SessionDecoder(report.packages);
    ghost var es: seq<Entry> := [];
    for i := 0 to |items|
      invariant report.Valid() && Mirrors(report, es)
      invariant DecodeAll(items[..i], dec) == Success(es)
    {
      assert dec(items[i]) == DecodeSession(items[i], report.packages);
      failure := ReadSession(report, items[i], es);
      if failure.Some? {
        DecodeAllStops(items, dec, i);
        return;
      }
      DecodeAllSnoc(items, dec, i);
      es := es + [DecodeSession(items[i], report.packages).value];
    }
    assert items[..|items|] == items;
    CoverageByIdIs(report.sessions, FileSessions(es).1);
    return None;
  }

  /** importReport: reads the packages, creates the report over them, then
      reads each session and adds it to the report. */
  method ImportReport(j: Json) returns (r: Outcome<JacocoCoverageReport>)
    ensures r.Success? <==> DecodeReport(j).Success?
    ensures r.Success? ==> fresh(r.value) && r.value.Valid()
    ensures r.Success? ==> r.value.packages == DecodeReport(j).value.0
    ensures r.Success? ==> (r.value.order, CoverageById(r.value.sessions)) == FileSessions(DecodeReport(j).value.1)
  {
    var packageItems :- GetArray(j, "packages");
    var packages :- DecodeAll(packageItems, DecodePackage);
    var report := new JacocoCoverageReport(packages);
    var sessionItems :- GetArray(j, "sessions");
    var failure := AddSessionsFrom(report, sessionItems);
    if failure.Some? {
      return Failure(failure.value);
    }
    r := Success(report);
  }
}
