/**
  Printing a type tree as Rust type syntax, and the code preview built
  around it (`ast_to_rust_string` and `generate_preview_code` of the
  visual alias editor).
 */
module RustPrinter {
  import opened TypeAst

  /** Rust's `join`: the parts with `sep` between consecutive ones. */
  function Join(parts: seq<string>, sep: string): (r: string)
    ensures parts == [] ==> r == ""
    ensures |parts| == 1 ==> r == parts[0]
    decreases parts
  {
    if |parts| == 0 then ""
    else if |parts| == 1 then parts[0]
    else parts[0] + sep + Join(parts[1..], sep)
  }

  const Separator: string := ", "

  /** The Rust type-expression text of a tree. */
  function Print(t: TypeAstNode): (r: string)
    decreases t
  {
    match t
    case Primitive(n) => n
    case Path(p) => p
    case AliasRef(a) => a
    case Constructor(n, ps) => n + "<" + Join(PrintEach(ps), Separator) + ">"
    case Tuple(es) => "(" + Join(PrintEach(es), Separator) + ")"
    case FnPointer(ps, ret) => "fn(" + Join(PrintEach(ps), Separator) + ") -> " + Print(ret)
  }

  /** The children printed one by one, in order. */
  function PrintEach(ts: seq<TypeAstNode>): (r: seq<string>)
    ensures |r| == |ts|
    ensures forall i :: 0 <= i < |ts| ==> r[i] == Print(ts[i])
    decreases ts
  {
    if ts == [] then [] else [Print(ts[0])] + PrintEach(ts[1..])
  }

  /** The three leaf kinds print as their stored text, unchanged. */
  lemma LeavesPrintTheirText(s: string)
    ensures Print(Primitive(s)) == s
    ensures Print(Path(s)) == s
    ensures Print(AliasRef(s)) == s
  {
  }

  /** With no children the brackets stay, empty: `name<>`, `()` and `fn() -> ret`. */
  lemma EmptyChildListsPrintEmptyBrackets(n: string, ret: TypeAstNode)
    ensures Print(Constructor(n, [])) == n + "<>"
    ensures Print(Tuple([])) == "()"
    ensures Print(FnPointer([], ret)) == "fn() -> " + Print(ret)
  {
  }

  /** A single child gets no trailing comma: a one-element tuple prints as `(T)`. */
  lemma OneChildPrintsWithoutComma(n: string, a: TypeAstNode, ret: TypeAstNode)
    ensures Print(Constructor(n, [a])) == n + "<" + Print(a) + ">"
    ensures Print(Tuple([a])) == "(" + Print(a) + ")"
    ensures Print(FnPointer([a], ret)) == "fn(" + Print(a) + ") -> " + Print(ret)
  {
  }

  /** Children are printed recursively and separated by a comma and a space. */
  lemma TwoChildrenPrintCommaSeparated(n: string, a: TypeAstNode, b: TypeAstNode, ret: TypeAstNode)
    ensures Print(Constructor(n, [a, b])) == n + "<" + Print(a) + ", " + Print(b) + ">"
    ensures Print(Tuple([a, b])) == "(" + Print(a) + ", " + Print(b) + ")"
    ensures Print(FnPointer([a, b], ret)) == "fn(" + Print(a) + ", " + Print(b) + ") -> " + Print(ret)
  {
    JoinTwoPrinted(a, b);
  }

  lemma JoinTwoPrinted(a: TypeAstNode, b: TypeAstNode)
    ensures Join(PrintEach([a, b]), Separator) == Print(a) + ", " + Print(b)
  {
    var parts := PrintEach([a, b]);
    assert parts == [Print(a), Print(b)];
    assert parts[1..] == [Print(b)];
  }

  const PreviewHeader: string := "// Auto-generated Rust type alias"
  const UsageHeader: string := "// Usage example:"

  /** The alias declaration the preview shows for a display name and a tree. */
  function AliasDeclaration(displayName: string, ast: TypeAstNode): (r: string) {
    "pub type " + displayName + " = " + Print(ast) + ";"
  }

  function UsageLine(displayName: string): (r: string) {
    "// let value: " + displayName + " = ...;"
  }

  /**
    The generated preview text (`generate_preview_code`): the Rust format
    string's five lines, joined by newlines.
   */
  function GeneratePreviewCode(displayName: string, ast: TypeAstNode): (r: string) {
    Join([PreviewHeader, AliasDeclaration(displayName, ast), "", UsageHeader, UsageLine(displayName)], "\n")
  }

  /** Splitting text at each newline, as Rust's `split('\n')` does. */
  function Lines(s: string): (r: seq<string>)
    ensures |r| > 0
    decreases |s|
  {
    if |s| == 0 then [""]
    else if s[0] == '\n' then [""] + Lines(s[1..])
    else
      var rest := Lines(s[1..]);
      [[s[0]] + rest[0]] + rest[1..]
  }

  predicate NoNewline(s: string) {
    '\n' !in s
  }

  lemma {:induction false} LinesOfSingleLine(a: string)
    requires NoNewline(a)
    ensures Lines(a) == [a]
    decreases |a|
  {
    if |a| > 0 {
      assert a[0] in a;
      assert forall c :: c in a[1..] ==> c in a;
      LinesOfSingleLine(a[1..]);
      assert [a[0]] + a[1..] == a;
    }
  }

  lemma {:induction false} LinesSplitAtFirstNewline(a: string, b: string)
    requires NoNewline(a)
    ensures Lines(a + "\n" + b) == [a] + Lines(b)
    decreases |a|
  {
    if |a| == 0 {
      assert a + "\n" + b == "\n" + b;
      assert ("\n" + b)[1..] == b;
    } else {
      var s := a + "\n" + b;
      assert s[0] == a[0];
      assert s[1..] == a[1..] + "\n" + b;
      LinesSplitAtFirstNewline(a[1..], b);
      assert [a[0]] + a[1..] == a;
    }
  }

  /** Splitting undoes joining with newlines, when no part holds a newline. */
  lemma {:induction false} LinesOfJoin(ls: seq<string>)
    requires |ls| > 0
    requires forall i :: 0 <= i < |ls| ==> NoNewline(ls[i])
    ensures Lines(Join(ls, "\n")) == ls
    decreases ls
  {
    if |ls| == 1 {
      LinesOfSingleLine(ls[0]);
    } else {
      LinesOfJoin(ls[1..]);
      LinesSplitAtFirstNewline(ls[0], Join(ls[1..], "\n"));
    }
  }

  /**
    The preview is five lines: a header, the alias declaration with the
    printed type, a blank line, and a usage example naming the alias.
   */
  /** For every name and type the preview is the template text, whatever characters they hold. */
  lemma PreviewIsTemplate(displayName: string, ast: TypeAstNode)
    ensures GeneratePreviewCode(displayName, ast)
         == PreviewHeader + "\n" + AliasDeclaration(displayName, ast) + "\n\n"
            + UsageHeader + "\n" + UsageLine(displayName)
  {
    var lines := [PreviewHeader, AliasDeclaration(displayName, ast), "", UsageHeader, UsageLine(displayName)];
    assert Join(lines[3..], "\n") == UsageHeader + "\n" + UsageLine(displayName);
    assert Join(lines[2..], "\n") == "" + "\n" + Join(lines[3..], "\n");
    assert Join(lines[1..], "\n") == AliasDeclaration(displayName, ast) + "\n" + Join(lines[2..], "\n");
    assert Join(lines, "\n") == PreviewHeader + "\n" + Join(lines[1..], "\n");
  }

  lemma {:induction false} PreviewDeclaresAlias(displayName: string, ast: TypeAstNode)
    requires NoNewline(displayName) && NoNewline(Print(ast))
    ensures Lines(GeneratePreviewCode(displayName, ast))
         == [PreviewHeader, AliasDeclaration(displayName, ast), "", UsageHeader, UsageLine(displayName)]
  {
    LinesOfJoin([PreviewHeader, AliasDeclaration(displayName, ast), "", UsageHeader, UsageLine(displayName)]);
  }
}
