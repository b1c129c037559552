/**
  A reader for the type syntax the printer emits. It exists to state what
  the printer promises: printing loses nothing but the distinction between
  the three leaf kinds, so distinct trees print distinctly.
 */
module TypeParser {
  import opened Wrappers
  import opened TypeAst
  import opened RustPrinter

  /** Length of the longest prefix of `s` made of identifier characters. */
  function IdentLength(s: string): (k: nat)
    ensures k <= |s|
    ensures forall i :: 0 <= i < k ==> IdentChar(s[i])
    ensures k < |s| ==> !IdentChar(s[k])
    decreases |s|
  {
    if |s| == 0 || !IdentChar(s[0]) then 0 else 1 + IdentLength(s[1..])
  }

  /** Reads one type from the front of `s`; returns it with the unread rest. */
  function ParseType(s: string): (r: Option<(TypeAstNode, string)>)
    ensures r.Some? ==> |r.value.1| < |s|
    decreases |s|, 0
  {
    var k := IdentLength(s);
    var id := s[..k];
    var after := s[k..];
    if |after| > 0 && after[0] == '<' && k > 0 then
      match ParseItems(after[1..], '>')
      case None => None
      case Some((ps, rest)) => Some((Constructor(id, ps), rest))
    else if |after| > 0 && after[0] == '(' && k == 0 then
      match ParseItems(after[1..], ')')
      case None => None
      case Some((es, rest)) => Some((Tuple(es), rest))
    else if |after| > 0 && after[0] == '(' && id == "fn" then
      match ParseItems(after[1..], ')')
      case None => None
      case Some((ps, rest)) =>
        if |rest| >= 4 && rest[..4] == " -> " then
          match ParseType(rest[4..])
          case None => None
          case Some((ret, rest')) => Some((FnPointer(ps, ret), rest'))
        else None
    else if k > 0 then Some((Primitive(id), after))
    else None
  }

  /** Reads a possibly empty, comma-separated list of types ended by `close`. */
  function ParseItems(s: string, close: char): (r: Option<(seq<TypeAstNode>, string)>)
    ensures r.Some? ==> |r.value.1| < |s|
    decreases |s|, 2
  {
    if |s| > 0 && s[0] == close then Some(([], s[1..]))
    else ParseMore(s, close)
  }

  /** Reads a non-empty, comma-separated list of types ended by `close`. */
  function ParseMore(s: string, close: char): (r: Option<(seq<TypeAstNode>, string)>)
    ensures r.Some? ==> |r.value.1| < |s|
    decreases |s|, 1
  {
    match ParseType(s)
    case None => None
    case Some((t, rest)) =>
      if |rest| > 0 && rest[0] == close then Some(([t], rest[1..]))
      else if |rest| >= 2 && rest[..2] == Separator then
        match ParseMore(rest[2..], close)
        case None => None
        case Some((ts, rest')) => Some(([t] + ts, rest'))
      else None
  }

  /** What may follow a printed type inside a larger printed type. */
  predicate Follower(rest: string) {
    rest == [] || rest[0] == ',' || rest[0] == '>' || rest[0] == ')'
  }

  predicate Closer(c: char) {
    c == '>' || c == ')'
  }

  lemma IdentLengthOfIdent(id: string, rest: string)
    requires forall i :: 0 <= i < |id| ==> IdentChar(id[i])
    requires rest == [] || !IdentChar(rest[0])
    ensures IdentLength(id + rest) == |id|
  {
    var s := id + rest;
    assert forall i :: 0 <= i < |id| ==> s[i] == id[i];
    if rest != [] {
      assert s[|id|] == rest[0];
    }
  }

  /** A printed well-formed type never starts with a closing bracket. */
  lemma PrintedTypeStart(t: TypeAstNode)
    requires WellFormed(t)
    ensures |Print(t)| > 0
    ensures IdentChar(Print(t)[0]) || Print(t)[0] == '('
  {
    match t
    case Primitive(n) =>
    case Path(p) =>
    case AliasRef(a) =>
    case Constructor(n, ps) =>
      assert Print(t)[0] == n[0];
    case Tuple(es) =>
    case FnPointer(ps, ret) =>
  }

  /** Reading back a printed type recovers the tree, up to leaf kinds. */
  lemma {:induction false} ParsePrinted(t: TypeAstNode, rest: string)
    requires WellFormed(t)
    requires Follower(rest)
    ensures ParseType(Print(t) + rest) == Some((Normal(t), rest))
    decreases t, 2
  {
    match t
    case Primitive(n) => ParsePrintedLeaf(n, rest);
    case Path(n) => ParsePrintedLeaf(n, rest);
    case AliasRef(n) => ParsePrintedLeaf(n, rest);
    case Constructor(n, ps) => ParsePrintedConstructor(n, ps, rest);
    case Tuple(es) => ParsePrintedTuple(es, rest);
    case FnPointer(ps, ret) => ParsePrintedFn(ps, ret, rest);
  }

  lemma ParsePrintedLeaf(n: string, rest: string)
    requires IsIdent(n)
    requires Follower(rest)
    ensures ParseType(n + rest) == Some((Primitive(n), rest))
  {
    var s := n + rest;
    IdentLengthOfIdent(n, rest);
    assert s[..|n|] == n && s[|n|..] == rest;
  }

  lemma {:induction false} ParsePrintedConstructor(n: string, ps: seq<TypeAstNode>, rest: string)
    requires IsIdent(n) && AllWellFormed(ps)
    requires Follower(rest)
    ensures ParseType(Print(Constructor(n, ps)) + rest) == Some((Constructor(n, NormalEach(ps)), rest))
    decreases Constructor(n, ps), 1
  {
    var s := Print(Constructor(n, ps)) + rest;
    var inner := Join(PrintEach(ps), Separator) + ['>'] + rest;
    assert s == n + ("<" + inner);
    IdentLengthOfIdent(n, "<" + inner);
    assert s[..|n|] == n;
    assert s[|n|..] == "<" + inner;
    assert ("<" + inner)[1..] == inner;
    ParsePrintedItems(ps, '>', rest);
  }

  lemma {:induction false} ParsePrintedTuple(es: seq<TypeAstNode>, rest: string)
    requires AllWellFormed(es)
    requires Follower(rest)
    ensures ParseType(Print(Tuple(es)) + rest) == Some((Tuple(NormalEach(es)), rest))
    decreases Tuple(es), 1
  {
    var s := Print(Tuple(es)) + rest;
    var inner := Join(PrintEach(es), Separator) + [')'] + rest;
    assert s == "(" + inner;
    IdentLengthOfIdent("", "(" + inner);
    assert s[..0] == "" && s[0..] == "(" + inner;
    assert ("(" + inner)[1..] == inner;
    ParsePrintedItems(es, ')', rest);
  }

  lemma {:induction false} ParsePrintedFn(ps: seq<TypeAstNode>, ret: TypeAstNode, rest: string)
    requires AllWellFormed(ps) && WellFormed(ret)
    requires Follower(rest)
    ensures ParseType(Print(FnPointer(ps, ret)) + rest) == Some((FnPointer(NormalEach(ps), Normal(ret)), rest))
    decreases FnPointer(ps, ret), 1
  {
    var tail := " -> " + Print(ret) + rest;
    var inner := Join(PrintEach(ps), Separator) + [')'] + tail;
    assert Print(FnPointer(ps, ret)) + rest == "fn" + ("(" + inner);
    ParsePrintedItems(ps, ')', tail);
    assert tail[4..] == Print(ret) + rest;
    ParsePrinted(ret, rest);
    ReadFnPointer(inner, NormalEach(ps), tail, Normal(ret), rest);
  }

  /** The steps `ParseType` takes on text starting with `fn(`. */
  lemma ReadFnPointer(inner: string, ps: seq<TypeAstNode>, tail: string, ret: TypeAstNode, rest: string)
    requires ParseItems(inner, ')') == Some((ps, tail))
    requires |tail| >= 4 && tail[..4] == " -> "
    requires ParseType(tail[4..]) == Some((ret, rest))
    ensures ParseType("fn" + ("(" + inner)) == Some((FnPointer(ps, ret), rest))
  {
    var s := "fn" + ("(" + inner);
    IdentLengthOfIdent("fn", "(" + inner);
    assert s[..2] == "fn";
    assert s[2..] == "(" + inner;
    assert s[2..][1..] == inner;
  }

  /** Reading back a printed list, closing bracket included. */
  lemma {:induction false} ParsePrintedItems(ts: seq<TypeAstNode>, close: char, rest: string)
    requires AllWellFormed(ts)
    requires Closer(close)
    ensures ParseItems(Join(PrintEach(ts), Separator) + [close] + rest, close) == Some((NormalEach(ts), rest))
    decreases ts, 1
  {
    var s := Join(PrintEach(ts), Separator) + [close] + rest;
    if ts == [] {
      assert s == [close] + rest;
      assert s[1..] == rest;
    } else {
      PrintedTypeStart(ts[0]);
      assert Join(PrintEach(ts), Separator)[0] == Print(ts[0])[0] by {
        if |ts| > 1 {
          assert Join(PrintEach(ts), Separator) == Print(ts[0]) + (Separator + Join(PrintEach(ts)[1..], Separator));
        }
      }
      ParsePrintedMore(ts, close, rest);
    }
  }

  lemma {:induction false} ParsePrintedMore(ts: seq<TypeAstNode>, close: char, rest: string)
    requires |ts| > 0
    requires AllWellFormed(ts)
    requires Closer(close)
    ensures ParseMore(Join(PrintEach(ts), Separator) + [close] + rest, close) == Some((NormalEach(ts), rest))
    decreases ts, 0
  {
    var s := Join(PrintEach(ts), Separator) + [close] + rest;
    if |ts| == 1 {
      assert s == Print(ts[0]) + ([close] + rest);
      ParsePrinted(ts[0], [close] + rest);
      assert ([close] + rest)[1..] == rest;
      assert NormalEach(ts) == [Normal(ts[0])];
    } else {
      var more := Join(PrintEach(ts[1..]), Separator) + [close] + rest;
      assert PrintEach(ts)[1..] == PrintEach(ts[1..]);
      assert s == Print(ts[0]) + (Separator + more);
      ParsePrinted(ts[0], Separator + more);
      assert (Separator + more)[..2] == Separator;
      assert (Separator + more)[2..] == more;
      ParsePrintedMore(ts[1..], close, rest);
      assert NormalEach(ts) == [Normal(ts[0])] + NormalEach(ts[1..]);
    }
  }

  /** The printed text of a well-formed tree reads back as the same tree, up to leaf kinds. */
  lemma ParsePrintRoundTrip(t: TypeAstNode)
    requires WellFormed(t)
    ensures ParseType(Print(t)) == Some((Normal(t), ""))
  {
    ParsePrinted(t, "");
    assert Print(t) + "" == Print(t);
  }

  /** Printing ignores the leaf kind: a tree and its normal form print alike. */
  lemma {:induction false} PrintIgnoresLeafKind(t: TypeAstNode)
    ensures Print(Normal(t)) == Print(t)
    decreases t, 1
  {
    match t
    case Primitive(n) =>
    case Path(p) =>
    case AliasRef(a) =>
    case Constructor(n, ps) => PrintEachIgnoresLeafKind(ps);
    case Tuple(es) => PrintEachIgnoresLeafKind(es);
    case FnPointer(ps, ret) =>
      PrintEachIgnoresLeafKind(ps);
      PrintIgnoresLeafKind(ret);
  }

  lemma {:induction false} PrintEachIgnoresLeafKind(ts: seq<TypeAstNode>)
    ensures PrintEach(NormalEach(ts)) == PrintEach(ts)
    decreases ts, 0
  {
    forall i | 0 <= i < |ts|
      ensures PrintEach(NormalEach(ts))[i] == PrintEach(ts)[i]
    {
      PrintIgnoresLeafKind(ts[i]);
    }
  }

  /**
    Two well-formed trees print to the same text exactly when they agree
    up to leaf kinds: the printer loses no other information.
   */
  lemma PrintDistinguishesTrees(a: TypeAstNode, b: TypeAstNode)
    requires WellFormed(a) && WellFormed(b)
    ensures Print(a) == Print(b) <==> Normal(a) == Normal(b)
  {
    if Print(a) == Print(b) {
      ParsePrintRoundTrip(a);
      ParsePrintRoundTrip(b);
    }
    if Normal(a) == Normal(b) {
      PrintIgnoresLeafKind(a);
      PrintIgnoresLeafKind(b);
    }
  }
}
