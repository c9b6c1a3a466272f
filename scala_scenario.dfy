/** The schema-mode scanner on a small generated file: one object holding
    a type, one holding the root `Query`. */
module ScalaScenario {
  import opened Wrappers
  import opened Strings
  import opened ScalaGen

  const L0 := "package a"
  const L1 := "object Types {"
  const L2 := "  case class User(id: Int)"
  const L3 := "}"
  const L4 := "object Operations {"
  const L5 := "  case class Query(user: User)"

  function File(): seq<string>
  {
    [L0, L1, L2, L3, L4, L5, L3]
  }

  /** A short line that is neither kind of declaration. */
  lemma Plain(line: string)
    requires |line| < 11 && |line| >= 1 && line[0] != 'o' && !IsSpace(line[0])
    ensures ObjectName(line) == None && ClassName(line) == None
  {
    SpaceRunIs(line, 0, 0);
    NotAt(line, 0, "object ", 0);
    ClassFromSkips(line, 0, |line|);
  }

  /** An indented type declaration is no `object` line. */
  lemma NotObject(line: string)
    requires |line| > 2 && line[0] == ' ' && line[1] == ' ' && line[2] == 'c'
    ensures ObjectName(line).None?
  {
    SpaceRunIs(line, 0, 2);
    NotAt(line, 2, "object ", 0);
  }

  lemma Line0()
    ensures ObjectName(L0) == None && ClassName(L0) == None
  {
    Plain(L0);
  }

  lemma Line1()
    ensures ObjectName(L1) == Some("Types")
  {
    assert L1 == "" + "object " + "Types" + " {";
    ObjectLine("", "Types", " {");
  }

  lemma Line2()
    ensures ObjectName(L2) == None && ClassName(L2) == Some("User")
  {
    NotObject(L2);
    Class2();
  }

  lemma Class2()
    ensures ClassName(L2) == Some("User")
  {
    assert L2 == "  " + "case class " + "User" + "(id: Int)";
    ClassLine("  ", "case class ", "User", "(id: Int)");
  }

  lemma Line3()
    ensures ObjectName(L3) == None && ClassName(L3) == None
  {
    Plain(L3);
  }

  lemma Line4()
    ensures ObjectName(L4) == Some("Operations")
  {
    assert L4 == "" + "object " + "Operations" + " {";
    ObjectLine("", "Operations", " {");
  }

  lemma Line5()
    ensures ObjectName(L5) == None && ClassName(L5) == Some("Query")
  {
    NotObject(L5);
    Class5();
  }

  lemma Class5()
    ensures ClassName(L5) == Some("Query")
  {
    assert L5 == "  " + "case class " + "Query" + "(user: User)";
    ClassLine("  ", "case class ", "Query", "(user: User)");
  }

  /** Worked example: which lines of the file open or close a brace. */
  lemma Braces()
    ensures '{' !in L0 && '}' !in L0
    ensures '{' in L1 && '}' !in L1
    ensures '{' !in L2 && '}' !in L2
    ensures '{' !in L3 && '}' in L3
    ensures '{' in L4 && '}' !in L4
    ensures '{' !in L5 && '}' !in L5
  {
    assert L1[13] == '{';
    assert L3[0] == '}';
    assert L4[18] == '{';
  }

  /** The names in the pair for `User` inside `Types`. */
  lemma UserGiven()
    ensures Qualify("Types", "User") == "Types.User"
    ensures BindingName("Types", "User") == "TypesUser"
    ensures LowerFirst(BindingName("Types", "User")) == "typesUser"
  {
    SplitWithout("Types", '.');
    assert BindingName("Types", "User") == "TypesUser";
  }

  /** An `object X {` line enters `X` one level down. */
  lemma StepObject(st: ScanState, line: string, x: string)
    requires ObjectName(line) == Some(x) && '{' in line && '}' !in line
    ensures Step(st, line) == ScanState(Qualify(st.prefix, x), st.curlyLeft + 1, st.res)
  {
  }

  /** A lone `}` line leaves the innermost object. */
  lemma StepClose(st: ScanState, line: string)
    requires ObjectName(line).None? && ClassName(line).None? && '}' in line && '{' !in line
    ensures Step(st, line) == ScanState(DropLastPrefix(st.prefix), st.curlyLeft - 1, st.res)
  {
  }

  /** A declaration line without braces adds the pair of its type, unless
      the type is `Query` or `Mutation`. */
  lemma StepDeclaration(st: ScanState, line: string, n: string)
    requires ObjectName(line).None? && ClassName(line) == Some(n) && '{' !in line && '}' !in line
    ensures Step(st, line) ==
      if n != "Query" && n != "Mutation" then ScanState(st.prefix, st.curlyLeft, st.res + [Given(st.prefix, n)]) else st
  {
  }

  /** Any other line without braces changes nothing. */
  lemma StepPlain(st: ScanState, line: string)
    requires ObjectName(line).None? && ClassName(line).None? && '{' !in line && '}' !in line
    ensures Step(st, line) == st
  {
  }

  lemma ScanSnoc(lines: seq<string>, line: string)
    ensures ScanOf(lines + [line]) == Step(ScanOf(lines), line)
  {
    assert (lines + [line])[..|lines|] == lines;
  }

  /** The four kinds of line in the file, as the scanner sees them. */
  predicate PlainLine(line: string)
  {
    ObjectName(line).None? && ClassName(line).None? && '{' !in line && '}' !in line
  }

  predicate OpenLine(line: string, x: string)
  {
    ObjectName(line) == Some(x) && '{' in line && '}' !in line
  }

  predicate CloseLine(line: string)
  {
    ObjectName(line).None? && ClassName(line).None? && '}' in line && '{' !in line
  }

  predicate DeclLine(line: string, n: string)
  {
    ObjectName(line).None? && ClassName(line) == Some(n) && '{' !in line && '}' !in line
  }

  lemma Kinds()
    ensures PlainLine(L0) && OpenLine(L1, "Types") && DeclLine(L2, "User") && CloseLine(L3)
    ensures OpenLine(L4, "Operations") && DeclLine(L5, "Query")
  {
    Line0(); Line1(); Line2(); Line3(); Line4(); Line5();
    Braces();
  }

  lemma ScanPlain(p: seq<string>, line: string, st: ScanState)
    requires ScanOf(p) == st && PlainLine(line)
    ensures ScanOf(p + [line]) == st
  {
    ScanSnoc(p, line);
    StepPlain(st, line);
  }

  lemma ScanOpen(p: seq<string>, line: string, x: string, st: ScanState)
    requires ScanOf(p) == st && OpenLine(line, x)
    ensures ScanOf(p + [line]) == ScanState(Qualify(st.prefix, x), st.curlyLeft + 1, st.res)
  {
    ScanSnoc(p, line);
    StepObject(st, line, x);
  }

  lemma ScanDecl(p: seq<string>, line: string, n: string, st: ScanState)
    requires ScanOf(p) == st && DeclLine(line, n)
    ensures ScanOf(p + [line]) ==
      if n != "Query" && n != "Mutation" then ScanState(st.prefix, st.curlyLeft, st.res + [Given(st.prefix, n)]) else st
  {
    ScanSnoc(p, line);
    StepDeclaration(st, line, n);
  }

  lemma ScanClose(p: seq<string>, line: string, st: ScanState)
    requires ScanOf(p) == st && CloseLine(line)
    ensures ScanOf(p + [line]) == ScanState(DropLastPrefix(st.prefix), st.curlyLeft - 1, st.res)
  {
    ScanSnoc(p, line);
    StepClose(st, line);
  }

  /** The scan of any seven lines of the same kinds as the file's. */
  lemma ScanShape(a0: string, a1: string, a2: string, a3: string, a4: string, a5: string)
    requires PlainLine(a0) && OpenLine(a1, "Types") && DeclLine(a2, "User") && CloseLine(a3)
    requires OpenLine(a4, "Operations") && DeclLine(a5, "Query")
    ensures ScanOf([] + [a0] + [a1] + [a2] + [a3] + [a4] + [a5] + [a3]) == ScanState("", 0, [Given("Types", "User")])
  {
    var g := [Given("Types", "User")];
    var p0: seq<string> := [];
    var p1 := p0 + [a0];
    var p2 := p1 + [a1];
    var p3 := p2 + [a2];
    var p4 := p3 + [a3];
    var p5 := p4 + [a4];
    var p6 := p5 + [a5];
    ScanPlain(p0, a0, ScanStart);
    ScanOpen(p1, a1, "Types", ScanStart);
    ScanDecl(p2, a2, "User", ScanState("Types", 1, []));
    NoDots();
    DropSingle("Types");
    ScanClose(p3, a3, ScanState("Types", 1, g));
    ScanOpen(p4, a4, "Operations", ScanState("", 0, g));
    ScanDecl(p5, a5, "Query", ScanState("Operations", 1, g));
    DropSingle("Operations");
    ScanClose(p6, a3, ScanState("Operations", 1, g));
  }

  /** Worked example: the two object names hold no dot. */
  lemma NoDots()
    ensures '.' !in "Types" && '.' !in "Operations"
  {
  }

  /** Helper for the worked example: seven appended singletons form one sequence. */
  lemma Seven<T>(a0: T, a1: T, a2: T, a3: T, a4: T, a5: T, a6: T)
    ensures [] + [a0] + [a1] + [a2] + [a3] + [a4] + [a5] + [a6] == [a0, a1, a2, a3, a4, a5, a6]
  {
  }

  /** The type inside `Types` gets one pair, qualified as `Types.User`;
      `Query` gets none; each object's closing brace drops its prefix. */
  lemma ScanFile()
    ensures ScanOf(File()) == ScanState("", 0, [Given("Types", "User")])
  {
    Kinds();
    ScanShape(L0, L1, L2, L3, L4, L5);
    Seven(L0, L1, L2, L3, L4, L5, L3);
  }
}
