/** The static source structure of the system under test: packages own
    classes, classes own methods, methods own lines. A child refers to its
    parent by the parent's full name (`owner`), which is what every lookup in
    the report keys on. */
module Structure {
  import opened Util

  /** A source line with its static instruction and branch totals; `owner` is
      the full name of the method the line belongs to. */
  datatype Line = Line(owner: string, lineNumber: int, instructions: int, branches: int)

  function LineInstructions(l: Line): int { l.instructions }
  function LineBranches(l: Line): int { l.branches }

  /** The method's full name, a colon and the line number. */
  function Identifier(l: Line): string {
    l.owner + ":" + IntToString(l.lineNumber)
  }

  /** Two lines have the same identifier only if they belong to the same
      method and carry the same number. */
  lemma IdentifierInjective(a: Line, b: Line)
    requires Identifier(a) == Identifier(b)
    ensures a.owner == b.owner && a.lineNumber == b.lineNumber
  {
    var s := Identifier(a);
    var ta, tb := IntToString(a.lineNumber), IntToString(b.lineNumber);
    assert s == a.owner + [':'] + ta == b.owner + [':'] + tb;
    LastIndexAfterSeparator(a.owner, ':', ta);
    LastIndexAfterSeparator(b.owner, ':', tb);
    assert a.owner == s[..|a.owner|] == b.owner;
    assert ta == s[|a.owner| + 1..] == tb;
    IntToStringRoundTrip(a.lineNumber);
    IntToStringRoundTrip(b.lineNumber);
  }

  /** Position of the last occurrence of `c` in `s`, or -1. */
  function LastIndexOf(s: string, c: char): int
    decreases |s|
  {
    if s == [] then -1
    else if s[|s| - 1] == c then |s| - 1
    else LastIndexOf(s[..|s| - 1], c)
  }

  lemma {:induction false} LastIndexAfterSeparator(o: string, c: char, t: string)
    requires c !in t
    ensures LastIndexOf(o + [c] + t, c) == |o|
    decreases |t|
  {
    var s := o + [c] + t;
    if t != [] {
      assert s[..|s| - 1] == o + [c] + t[..|t| - 1];
      LastIndexAfterSeparator(o, c, t[..|t| - 1]);
    }
  }

  /** The text of a signature before its first '(' (all of it if there is none). */
  function BeforeParen(s: string): (r: string)
    ensures r <= s
    ensures '(' !in r
    ensures r == s || s[|r|] == '('
  {
    if s == [] || s[0] == '(' then [] else [s[0]] + BeforeParen(s[1..])
  }

  /** A method: signature, cyclomatic complexity and its lines by number;
      `owner` is the full name of its class. */
  datatype Method = Method(owner: string, signature: string, complexity: int, lines: map<int, Line>) {

    function FullName(): string {
      owner + "." + signature
    }

    /** `signature.split("\\(")[0].trim()`. Java's split drops trailing empty
        pieces, so a non-empty signature made only of '(' leaves no piece at
        all and indexing it throws: that case is `None`. */
    function Name(): Option<string> {
      if signature == [] then Some([])
      else if forall i | 0 <= i < |signature| :: signature[i] == '(' then None
      else Some(Trim(BeforeParen(signature)))
    }

    function GetLine(lineNumber: int): Option<Line> {
      if lineNumber in lines then Some(lines[lineNumber]) else None
    }

    /** How many lines the method holds. */
    function NumberOfLines(): nat {
      |lines|
    }

    /** Stores a line under its number; a later line with the same number
        replaces the earlier one, every other number keeps its line. */
    function AddLine(l: Line): (r: Method)
      ensures r.owner == owner && r.signature == signature && r.complexity == complexity
      ensures r.GetLine(l.lineNumber) == Some(l)
      ensures forall n | n != l.lineNumber :: r.GetLine(n) == GetLine(n)
      ensures r.lines.Keys == lines.Keys + {l.lineNumber}
    {
      this.(lines := lines[l.lineNumber := l])
    }

    /** Each line sits under its own number and names this method as owner. */
    ghost predicate WellFormed() {
      forall n | n in lines :: lines[n].lineNumber == n && lines[n].owner == FullName()
    }
  }

  /** Adding a line grows the method by one line exactly when no line with
      that number was there; a replacement leaves the count alone. */
  lemma AddLineCount(m: Method, l: Line)
    ensures m.AddLine(l).NumberOfLines() == m.NumberOfLines() + (if l.lineNumber in m.lines then 0 else 1)
  {
    var r := m.AddLine(l);
    assert r.lines.Keys == m.lines.Keys + {l.lineNumber};
    if l.lineNumber !in m.lines {
      assert m.lines.Keys !! {l.lineNumber};
    } else {
      assert r.lines.Keys == m.lines.Keys;
    }
    assert |r.lines| == |r.lines.Keys| && |m.lines| == |m.lines.Keys|;
  }

  /** For a signature `name(args)` the method name is the trimmed text before
      the parenthesis. */
  lemma NameOfSignature(m: Method, name: string, args: string)
    requires name != [] && '(' !in name
    requires m.signature == name + "(" + args
    ensures m.Name() == Some(Trim(name))
  {
    assert m.signature[0] == name[0] != '(';
    var b := BeforeParen(m.signature);
    assert m.signature[|name|] == '(';
    assert b == m.signature[..|name|] == name;
  }

  /** The method name never contains '('. */
  lemma NameHasNoParen(m: Method)
    requires m.Name().Some?
    ensures '(' !in m.Name().value
  {
    if m.signature != [] {
      var b := BeforeParen(m.signature);
      var t := Trim(b);
      var ts := TrimStart(b);
      assert ts == b[|b| - |ts|..];
      forall i | 0 <= i < |t| ensures t[i] != '(' {
        assert t[i] == ts[i] == b[|b| - |ts| + i];
      }
    }
  }

  /** The JacocoLine constructor: a fresh line that registers itself in its
      method under its number. */
  function NewLine(m: Method, lineNumber: int, instructions: int, branches: int): (r: (Method, Line))
    ensures r.1.owner == m.FullName() && r.1.lineNumber == lineNumber
    ensures r.1.instructions == instructions && r.1.branches == branches
    ensures r.0.FullName() == m.FullName() && r.0.complexity == m.complexity
    ensures r.0.GetLine(lineNumber) == Some(r.1)
    ensures m.WellFormed() ==> r.0.WellFormed()
  {
    var l := Line(m.FullName(), lineNumber, instructions, branches);
    (m.AddLine(l), l)
  }

  /** Total instructions of a method: the sum over its lines. */
  method GetInstructions(m: Method) returns (total: int)
    ensures total == Sum(m.lines, LineInstructions)
  {
    total := SumValues(m.lines, LineInstructions);
  }

  /** Total branches of a method: the sum over its lines. */
  method GetBranches(m: Method) returns (total: int)
    ensures total == Sum(m.lines, LineBranches)
  {
    total := SumValues(m.lines, LineBranches);
  }

  /** The first method of `ms` with the given full name. */
  function FindMethod(ms: seq<Method>, fullName: string): (r: Option<Method>)
    ensures r.Some? ==> r.value in ms && r.value.FullName() == fullName
    ensures r.None? <==> forall m | m in ms :: m.FullName() != fullName
  {
    if ms == [] then None
    else if ms[0].FullName() == fullName then Some(ms[0])
    else FindMethod(ms[1..], fullName)
  }

  /** A class: its name and methods; `owner` is the name of its package. The
      methods are kept in insertion order, each once. */
  datatype Clazz = Clazz(owner: string, name: string, methods: seq<Method>) {

    function FullName(): string {
      owner + "." + name
    }

    /** Set insertion: a method already present is not added again. */
    function AddMethod(m: Method): (r: Clazz)
      ensures r.owner == owner && r.name == name
      ensures m in r.methods
      ensures forall x :: x in r.methods <==> x in methods || x == m
      ensures Distinct(methods) ==> Distinct(r.methods)
    {
      if m in methods then this else this.(methods := methods + [m])
    }

    function GetMethodByFullName(fullName: string): (r: Option<Method>)
      ensures r.Some? ==> r.value in methods && r.value.FullName() == fullName
      ensures r.None? <==> forall m | m in methods :: m.FullName() != fullName
    {
      FindMethod(methods, fullName)
    }

    ghost predicate WellFormed() {
      forall m | m in methods :: m.owner == FullName() && m.WellFormed()
    }
  }

  /** Adding a method twice leaves the class as adding it once. */
  lemma AddMethodIdempotent(c: Clazz, m: Method)
    ensures c.AddMethod(m).AddMethod(m) == c.AddMethod(m)
  {
  }

  /** The JacocoMethod constructor: a method without lines, registered in its class. */
  function NewMethod(c: Clazz, signature: string, complexity: int): (r: (Clazz, Method))
    ensures r.1.FullName() == c.FullName() + "." + signature
    ensures r.1.signature == signature && r.1.complexity == complexity && r.1.lines == map[]
    ensures r.1 in r.0.methods
    ensures r.0.FullName() == c.FullName()
    ensures forall x :: x in r.0.methods <==> x in c.methods || x == r.1
    ensures c.WellFormed() ==> r.0.WellFormed()
  {
    var m := Method(c.FullName(), signature, complexity, map[]);
    (c.AddMethod(m), m)
  }

  /** A package: its name and classes, in insertion order, each once. */
  datatype Package = Package(name: string, classes: seq<Clazz>) {

    /** Set insertion: a class already present is not added again. */
    function AddClass(c: Clazz): (r: Package)
      ensures r.name == name
      ensures c in r.classes
      ensures forall x :: x in r.classes <==> x in classes || x == c
    {
      if c in classes then this else this.(classes := classes + [c])
    }

    /** Consults, in order, the classes whose full name is a prefix of the
        query, and returns the first exact match among their methods. */
    function GetMethodByFullName(fullName: string): (r: Option<Method>)
      ensures r.Some? ==> r.value.FullName() == fullName
      ensures r.Some? ==> exists c | c in classes :: c.FullName() <= fullName && r.value in c.methods
      ensures r.None? <==> forall c, m | c in classes && m in c.methods ::
                              c.FullName() <= fullName ==> m.FullName() != fullName
    {
      FindInClasses(classes, fullName)
    }

    ghost predicate WellFormed() {
      forall c | c in classes :: c.owner == name && c.WellFormed()
    }
  }

  function FindInClasses(cs: seq<Clazz>, fullName: string): (r: Option<Method>)
    ensures r.Some? ==> r.value.FullName() == fullName
    ensures r.Some? ==> exists c | c in cs :: c.FullName() <= fullName && r.value in c.methods
    ensures r.None? <==> forall c, m | c in cs && m in c.methods ::
                            c.FullName() <= fullName ==> m.FullName() != fullName
  {
    if cs == [] then None
    else
      var found := if cs[0].FullName() <= fullName then cs[0].GetMethodByFullName(fullName) else None;
      if found.Some? then found else FindInClasses(cs[1..], fullName)
  }

  /** Adding a class twice leaves the package as adding it once. */
  lemma AddClassIdempotent(p: Package, c: Clazz)
    ensures p.AddClass(c).AddClass(c) == p.AddClass(c)
  {
  }

  /** The JacocoClass constructor: a class without methods, registered in its package. */
  function NewClass(p: Package, name: string): (r: (Package, Clazz))
    ensures r.1.FullName() == p.name + "." + name
    ensures r.1.name == name && r.1.methods == []
    ensures r.1 in r.0.classes && r.0.name == p.name
    ensures forall x :: x in r.0.classes <==> x in p.classes || x == r.1
    ensures p.WellFormed() ==> r.0.WellFormed()
  {
    var c := Clazz(p.name, name, []);
    (p.AddClass(c), c)
  }

  /** The report's method lookup over its packages: packages whose name is a
      prefix of the query are asked in order, and a miss moves on to the next. */
  function MethodByFullName(packages: seq<Package>, fullName: string): (r: Option<Method>)
    ensures r.Some? ==> r.value.FullName() == fullName
    ensures r.Some? ==> exists p | p in packages :: p.name <= fullName
  {
    if packages == [] then None
    else
      var found := if packages[0].name <= fullName then packages[0].GetMethodByFullName(fullName) else None;
      if found.Some? then found else MethodByFullName(packages[1..], fullName)
  }

  ghost predicate WellFormedRegistry(packages: seq<Package>) {
    forall p | p in packages :: p.WellFormed()
  }

  /** A method registered under a class and package is reached by the prefix
      search: the full name of each node begins with its parent's. */
  lemma RegisteredIsFound(packages: seq<Package>, p: Package, c: Clazz, m: Method)
    requires WellFormedRegistry(packages)
    requires p in packages && c in p.classes && m in c.methods
    ensures MethodByFullName(packages, m.FullName()).Some?
  {
    var name := m.FullName();
    assert name == c.FullName() + "." + m.signature;
    assert c.FullName() <= name;
    assert c.FullName() == p.name + "." + c.name;
    assert p.name <= c.FullName();
    assert p.name <= name;
    assert p.GetMethodByFullName(name).Some?;
    FoundInPrefix(packages, p, name);
  }

  lemma {:induction false} FoundInPrefix(packages: seq<Package>, p: Package, name: string)
    requires p in packages && p.name <= name && p.GetMethodByFullName(name).Some?
    ensures MethodByFullName(packages, name).Some?
  {
    if packages[0] != p {
      var found := if packages[0].name <= name then packages[0].GetMethodByFullName(name) else None;
      if found.None? {
        FoundInPrefix(packages[1..], p, name);
      }
    }
  }

  /** In a well-formed registry the lookup misses exactly when no registered
      method has that full name. */
  lemma LookupMissesOnlyUnregistered(packages: seq<Package>, name: string)
    requires WellFormedRegistry(packages)
    ensures MethodByFullName(packages, name).None? <==>
            forall p, c, m | p in packages && c in p.classes && m in c.methods :: m.FullName() != name
  {
    if MethodByFullName(packages, name).None? {
      forall p, c, m | p in packages && c in p.classes && m in c.methods
        ensures m.FullName() != name
      {
        if m.FullName() == name {
          RegisteredIsFound(packages, p, c, m);
        }
      }
    } else {
      var r := MethodByFullName(packages, name).value;
      FoundIsRegistered(packages, name);
    }
  }

  lemma {:induction false} FoundIsRegistered(packages: seq<Package>, name: string)
    requires MethodByFullName(packages, name).Some?
    ensures exists p, c | p in packages && c in p.classes :: MethodByFullName(packages, name).value in c.methods
  {
    var found := if packages[0].name <= name then packages[0].GetMethodByFullName(name) else None;
    if found.None? {
      FoundIsRegistered(packages[1..], name);
    } else {
      var c :| c in packages[0].classes && c.FullName() <= name && found.value in c.methods;
    }
  }
}
