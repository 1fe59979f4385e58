/** Splitting the parameter types out of a signature such as `f((a,b)[],c)`. */
module ArgTypes {
  import opened JsText

  function Step(depth: int, c: char): int {
    if c == '(' then depth + 1 else if c == ')' then depth - 1 else depth
  }

  /** Nesting depth after reading `s`. */
  function Depth(s: string, depth: int): int {
    if s == "" then depth else Depth(s[1..], Step(depth, s[0]))
  }

  /** No comma of `s` is at depth zero. */
  predicate Unsplit(s: string, depth: int) {
    s == "" || (!(s[0] == ',' && depth == 0) && Unsplit(s[1..], Step(depth, s[0])))
  }

  /** A piece that a comma may follow: its parentheses close and it has no top-level comma. */
  predicate Closed(s: string) {
    Unsplit(s, 0) && Depth(s, 0) == 0
  }

  /** Depth counts parentheses and nothing else. */
  lemma {:induction false} DepthCounts(s: string, depth: int)
    ensures Depth(s, depth) == depth + multiset(s)['('] - multiset(s)[')']
  {
    if s != "" {
      DepthCounts(s[1..], Step(depth, s[0]));
      assert s == [s[0]] + s[1..];
      assert multiset(s) == multiset([s[0]]) + multiset(s[1..]);
    }
  }

  /** A piece may hold a comma exactly where the parentheses before it are unbalanced. */
  lemma {:induction false} UnsplitIff(s: string, depth: int)
    ensures Unsplit(s, depth)
      <==> forall i :: 0 <= i < |s| && s[i] == ',' ==> depth + multiset(s[..i])['('] != multiset(s[..i])[')']
  {
    forall i | 0 <= i < |s| ensures Depth(s[..i], depth) == depth + multiset(s[..i])['('] - multiset(s[..i])[')'] {
      DepthCounts(s[..i], depth);
    }
    CommasInside(s, depth);
  }

  lemma {:induction false} CommasInside(s: string, depth: int)
    ensures Unsplit(s, depth) <==> forall i :: 0 <= i < |s| && s[i] == ',' ==> Depth(s[..i], depth) != 0
  {
    if s != "" {
      var t, d := s[1..], Step(depth, s[0]);
      CommasInside(t, d);
      assert s[..0] == "";
      forall i | 0 < i < |s| ensures Depth(s[..i], depth) == Depth(t[..i - 1], d) {
        assert s[..i][1..] == t[..i - 1];
      }
      assert forall i :: 0 <= i < |t| ==> t[i] == s[i + 1];
    }
  }

  function Prepend(cur: string, ps: seq<string>): (r: seq<string>)
    requires 0 < |ps|
    ensures |r| == |ps|
  {
    [cur + ps[0]] + ps[1..]
  }

  /** The pieces between top-level commas. */
  function Pieces(s: string, depth: int): (ps: seq<string>)
    ensures 0 < |ps|
  {
    if s == "" then [""]
    else if s[0] == ',' && depth == 0 then [""] + Pieces(s[1..], depth)
    else Prepend([s[0]], Pieces(s[1..], Step(depth, s[0])))
  }

  function Join(ps: seq<string>): string
    requires 0 < |ps|
  {
    if |ps| == 1 then ps[0] else ps[0] + "," + Join(ps[1..])
  }

  /** Pieces as they come out of a text: all but the last are closed. */
  predicate WellSplit(ps: seq<string>) {
    && 0 < |ps|
    && (forall i :: 0 <= i < |ps| - 1 ==> Closed(ps[i]))
    && Unsplit(ps[|ps| - 1], 0)
  }

  /** Trimmed pieces; a blank last one is dropped. */
  function Listed(ps: seq<string>): seq<string>
    requires 0 < |ps|
  {
    if |ps| == 1 then (if Trim(ps[0]) == "" then [] else [Trim(ps[0])])
    else [Trim(ps[0])] + Listed(ps[1..])
  }

  function IndexOf(s: string, c: char): int {
    if s == "" then -1 else if s[0] == c then 0 else
      var i := IndexOf(s[1..], c);
      if i < 0 then -1 else i + 1
  }

  function LastIndexOf(s: string, c: char): (i: int)
    ensures -1 <= i < |s| && (0 <= i ==> s[i] == c)
    ensures forall j :: i < j < |s| ==> s[j] != c
  {
    if s == "" then -1 else if s[|s| - 1] == c then |s| - 1 else LastIndexOf(s[..|s| - 1], c)
  }

  lemma {:induction false} IndexOfFirst(s: string, c: char)
    ensures -1 <= IndexOf(s, c) < |s|
    ensures IndexOf(s, c) < 0 ==> c !in s
    ensures 0 <= IndexOf(s, c) ==> s[IndexOf(s, c)] == c && c !in s[..IndexOf(s, c)]
  {
    if s != "" {
      IndexOfFirst(s[1..], c);
    }
  }

  /** The text between the first opening and the last closing parenthesis, if there is one. */
  function Inside(signature: string): string {
    IndexOfFirst(signature, '(');
    var start, end := IndexOf(signature, '('), LastIndexOf(signature, ')');
    if start < 0 || end <= start then "" else Trim(signature[start + 1..end])
  }

  lemma PrependNothing(ps: seq<string>)
    requires 0 < |ps|
    ensures Prepend("", ps) == ps
  {
    assert "" + ps[0] == ps[0];
  }

  lemma PrependTwice(a: string, b: string, ps: seq<string>)
    requires 0 < |ps|
    ensures Prepend(a, Prepend(b, ps)) == Prepend(a + b, ps)
  {
    assert a + (b + ps[0]) == a + b + ps[0];
  }

  lemma ReadOne(cur: string, s: string, depth: int)
    requires s != ""
    ensures s[0] == ',' && depth == 0 ==>
              Listed(Prepend(cur, Pieces(s, depth))) == [Trim(cur)] + Listed(Prepend("", Pieces(s[1..], 0)))
    ensures !(s[0] == ',' && depth == 0) ==>
              Prepend(cur, Pieces(s, depth)) == Prepend(cur + [s[0]], Pieces(s[1..], Step(depth, s[0])))
  {
    hide Trim;
    var next := Pieces(s[1..], Step(depth, s[0]));
    PrependTwice(cur, [s[0]], next);
    PrependNothing(next);
    assert cur + "" == cur;
    assert Prepend(cur, [""] + next) == [cur] + next;
  }

  lemma PrependToEmpty(cur: string, depth: int)
    ensures Prepend(cur, Pieces("", depth)) == [cur]
  {
    assert cur + "" == cur;
  }

  lemma TrimNothing()
    ensures Trim("") == ""
  {
  }

  /** The loop of the source, with its depth counter, current piece and list of types. */
  method ParseArgTypes(signature: string) returns (types: seq<string>)
    ensures types == Listed(Pieces(Inside(signature), 0))
  {
    hide Trim, IndexOf, Prepend;
    TrimNothing();
    IndexOfFirst(signature, '(');
    var start, end := IndexOf(signature, '('), LastIndexOf(signature, ')');
    types := [];
    if start < 0 || end < 0 || end <= start {
      return;
    }
    var inside := Trim(signature[start + 1..end]);
    if inside == "" {
      return;
    }
    var depth, cur := 0, "";
    assert inside[0..] == inside;
    PrependNothing(Pieces(inside, 0));
    for i := 0 to |inside|
      invariant types + Listed(Prepend(cur, Pieces(inside[i..], depth))) == Listed(Pieces(inside, 0))
    {
      var ch := inside[i];
      ReadOne(cur, inside[i..], depth);
      assert inside[i..][1..] == inside[i + 1..];
      if ch == '(' {
        depth := depth + 1;
      }
      if ch == ')' {
        depth := depth - 1;
      }
      if ch == ',' && depth == 0 {
        types := types + [Trim(cur)];
        cur := "";
      } else {
        if ch != ',' || depth != 0 {
          cur := cur + [ch];
        }
      }
    }
    PrependToEmpty(cur, depth);
    if Trim(cur) != "" {
      types := types + [Trim(cur)];
    }
  }

  // -------------------------------------------------------- joining and splitting

  /** Splitting loses nothing: joining the pieces gives the text back, whatever it is. */
  lemma {:induction false} JoinOfPieces(s: string, depth: int)
    ensures Join(Pieces(s, depth)) == s
  {
    if s != "" {
      JoinOfPieces(s[1..], Step(depth, s[0]));
      hide Join, Prepend;
      assert s == [s[0]] + s[1..];
      var rest := Pieces(s[1..], Step(depth, s[0]));
      JoinPrepended([s[0]], rest);
      JoinAfterComma(rest);
    }
  }

  lemma JoinPrepended(a: string, ps: seq<string>)
    requires 0 < |ps|
    ensures Join(Prepend(a, ps)) == a + Join(ps)
  {
    var qs := Prepend(a, ps);
    assert qs[0] == a + ps[0] && qs[1..] == ps[1..];
    if 1 < |ps| {
      Regroup(a, ps[0], ",", Join(ps[1..]));
    }
  }

  lemma Regroup(a: string, b: string, c: string, d: string)
    ensures a + b + c + d == a + (b + c + d)
  {
  }

  lemma JoinAfterComma(ps: seq<string>)
    requires 0 < |ps|
    ensures Join([""] + ps) == "," + Join(ps)
  {
    assert ([""] + ps)[1..] == ps;
  }

  lemma {:induction false} PieceThenRest(p: string, depth: int, t: string)
    requires Unsplit(p, depth)
    ensures t == "" ==> Pieces(p + t, depth) == [p]
    ensures Depth(p, depth) == 0 && t != "" && t[0] == ',' ==> Pieces(p + t, depth) == [p] + Pieces(t[1..], 0)
  {
    if p == "" {
      assert p + t == t;
    } else {
      PieceThenRest(p[1..], Step(depth, p[0]), t);
      assert (p + t)[1..] == p[1..] + t;
      assert p == [p[0]] + p[1..];
    }
  }

  /** And it finds exactly the pieces that were joined. */
  lemma {:induction false} PiecesOfJoin(ps: seq<string>)
    requires WellSplit(ps)
    ensures Pieces(Join(ps), 0) == ps
  {
    hide Pieces, Unsplit, Depth;
    if |ps| == 1 {
      PieceThenRest(ps[0], 0, "");
      assert ps[0] + "" == ps[0] && ps == [ps[0]];
    } else {
      var t := "," + Join(ps[1..]);
      assert Closed(ps[0]);
      PiecesOfJoin(ps[1..]);
      PieceThenRest(ps[0], 0, t);
      assert Join(ps) == ps[0] + t && t[1..] == Join(ps[1..]);
      assert ps == [ps[0]] + ps[1..];
    }
  }

  /** The pieces of any text are well split, so splitting and joining are inverse bijections. */
  lemma {:induction false} PiecesWellSplit(s: string, depth: int)
    ensures var ps := Pieces(s, depth);
            if |ps| == 1 then Unsplit(ps[0], depth)
            else Unsplit(ps[0], depth) && Depth(ps[0], depth) == 0 && WellSplit(ps[1..])
  {
    if s != "" {
      var ps := Pieces(s, depth);
      PiecesWellSplit(s[1..], Step(depth, s[0]));
      var rest := Pieces(s[1..], Step(depth, s[0]));
      if s[0] == ',' && depth == 0 {
        assert ps[1..] == rest;
        if 1 < |rest| {
          assert Closed(rest[0]);
          forall i | 0 <= i < |rest| - 1 ensures Closed(rest[i]) {
            assert 0 < i ==> rest[i] == rest[1..][i - 1];
          }
          assert rest[|rest| - 1] == rest[1..][|rest| - 2];
        }
      } else {
        assert ps[1..] == rest[1..];
        assert ps[0][1..] == rest[0];
      }
    }
  }

  // ------------------------------------------------------------------ white space

  /** White space around the whole list disappears with that around its first and last piece. */
  lemma {:induction false} TrimStartOfPieces(s: string)
    ensures Listed(Pieces(TrimStart(s), 0)) == Listed(Pieces(s, 0))
  {
    if s != "" && IsSpace(s[0]) {
      var rest := Pieces(s[1..], 0);
      TrimStartOfPieces(s[1..]);
      assert Pieces(s, 0) == [[s[0]] + rest[0]] + rest[1..];
      assert TrimStart([s[0]] + rest[0]) == TrimStart(rest[0]) by {
        assert ([s[0]] + rest[0])[1..] == rest[0];
      }
    }
  }

  function AppendLast(ps: seq<string>, c: char): (r: seq<string>)
    requires 0 < |ps|
    ensures |r| == |ps|
  {
    ps[..|ps| - 1] + [ps[|ps| - 1] + [c]]
  }

  lemma PrependAppendLast(a: string, ps: seq<string>, c: char)
    requires 0 < |ps|
    ensures Prepend(a, AppendLast(ps, c)) == AppendLast(Prepend(a, ps), c)
  {
    if |ps| == 1 {
      assert a + (ps[0] + [c]) == a + ps[0] + [c];
    }
  }

  lemma CommaAppendLast(ps: seq<string>, c: char)
    requires 0 < |ps|
    ensures [""] + AppendLast(ps, c) == AppendLast([""] + ps, c)
  {
  }

  lemma AppendToNothing(c: char, depth: int)
    requires c != ','
    ensures Pieces([c], depth) == AppendLast(Pieces("", depth), c)
  {
    assert [c][1..] == "" && [c] + "" == [c] == "" + [c];
  }

  lemma {:induction false} AppendToLast(s: string, c: char, depth: int)
    requires c != ','
    ensures Pieces(s + [c], depth) == AppendLast(Pieces(s, depth), c)
  {
    hide AppendLast, Prepend;
    if s == "" {
      AppendToNothing(c, depth);
      assert s + [c] == [c];
    } else {
      AppendToLast(s[1..], c, Step(depth, s[0]));
      assert (s + [c])[1..] == s[1..] + [c];
      PrependAppendLast([s[0]], Pieces(s[1..], Step(depth, s[0])), c);
      CommaAppendLast(Pieces(s[1..], depth), c);
    }
  }

  lemma {:induction false} ListedAppend(ps: seq<string>, c: char)
    requires 0 < |ps| && IsSpace(c)
    ensures Listed(AppendLast(ps, c)) == Listed(ps)
  {
    hide Trim;
    var qs := AppendLast(ps, c);
    if |ps| == 1 {
      TrimIgnoresEnd(ps[0], c);
    } else {
      ListedAppend(ps[1..], c);
      assert qs[1..] == AppendLast(ps[1..], c);
    }
  }

  lemma CommaIsNoSpace()
    ensures !IsSpace(',')
  {
  }

  lemma {:induction false} TrimEndOfPieces(s: string)
    ensures Listed(Pieces(TrimEnd(s), 0)) == Listed(Pieces(s, 0))
  {
    hide Listed, Pieces, IsSpace, AppendLast;
    if s != "" && IsSpace(s[|s| - 1]) {
      CommaIsNoSpace();
      var t := s[..|s| - 1];
      TrimEndOfPieces(t);
      AppendToLast(t, s[|s| - 1], 0);
      ListedAppend(Pieces(t, 0), s[|s| - 1]);
      assert s == t + [s[|s| - 1]];
    }
  }

  // ------------------------------------------------------------------- signatures

  function Signature(name: string, inside: string, after: string): string {
    name + "(" + inside + ")" + after
  }

  lemma {:induction false} IndexAfter(name: string, c: char, t: string)
    requires c !in name
    ensures IndexOf(name + [c] + t, c) == |name|
  {
    if name == "" {
      assert name + [c] + t == [c] + t;
    } else {
      IndexAfter(name[1..], c, t);
      assert (name + [c] + t)[1..] == name[1..] + [c] + t;
    }
  }

  lemma {:induction false} LastBefore(s: string, c: char, after: string)
    requires c !in after
    ensures LastIndexOf(s + [c] + after, c) == |s|
  {
    var t := s + [c] + after;
    if after != "" {
      var init := after[..|after| - 1];
      LastBefore(s, c, init);
      assert t == s + [c] + init + [after[|after| - 1]];
      assert t[..|t| - 1] == s + [c] + init;
    }
  }

  /**
   * Parsing a signature lists its pieces, trimmed, for any well split pieces between its
   * parentheses, whatever precedes the first or follows the last.
   */
  lemma ParseInvertsJoin(name: string, ps: seq<string>, after: string)
    requires '(' !in name && ')' !in after && WellSplit(ps)
    ensures Listed(Pieces(Inside(Signature(name, Join(ps), after)), 0)) == Listed(ps)
  {
    hide LastIndexOf;
    var j := Join(ps);
    var s := Signature(name, j, after);
    assert s == name + "(" + (j + ")" + after);
    assert s == (name + "(" + j) + ")" + after;
    IndexAfter(name, '(', j + ")" + after);
    LastBefore(name + "(" + j, ')', after);
    assert s[|name| + 1..|name| + 1 + |j|] == j;
    TrimEndOfPieces(TrimStart(j));
    TrimStartOfPieces(j);
    PiecesOfJoin(ps);
  }

  /** The list is the pieces without the blanks around them; only a blank last piece is left out. */
  lemma {:induction false} ListedIs(ps: seq<string>)
    requires 0 < |ps|
    ensures var types := Listed(ps);
            && |types| == |ps| - (if Trim(ps[|ps| - 1]) == "" then 1 else 0)
            && forall i :: 0 <= i < |types| ==> types[i] == Trim(ps[i])
  {
    if 1 < |ps| {
      ListedIs(ps[1..]);
    }
  }

  /** Without an opening parenthesis, or a closing one after it, there are no types. */
  lemma NoParentheses(s: string, k: nat)
    requires k <= |s| && forall i :: 0 <= i < |s| ==> s[i] != if i < k then '(' else ')'
    ensures Listed(Pieces(Inside(s), 0)) == []
  {
    IndexOfFirst(s, '(');
    TrimNothing();
  }

  /** A type as it appears in a canonical signature. */
  predicate IsType(t: string) {
    t != "" && t[0] !in BLANKS && t[|t| - 1] !in BLANKS && Closed(t)
  }

  /** The same texts with blanks around each. */
  function Padded(pre: seq<string>, ts: seq<string>, post: seq<string>): (ps: seq<string>)
    requires |pre| == |ts| == |post|
    ensures |ps| == |ts| && forall i :: 0 <= i < |ts| ==> ps[i] == pre[i] + ts[i] + post[i]
  {
    seq(|ts|, i requires 0 <= i < |ts| => pre[i] + ts[i] + post[i])
  }

  lemma {:induction false} BlankFlat(s: string, depth: int)
    requires Blank(s)
    ensures Unsplit(s, depth) && Depth(s, depth) == depth
  {
    if s != "" {
      BlankCharacter(s[0]);
      BlankFlat(s[1..], depth);
    }
  }

  lemma BlankCharacter(c: char)
    ensures c in BLANKS ==> c != '(' && c != ')' && c != ','
  {
  }

  lemma PaddedType(pre: string, t: string, post: string)
    requires Blank(pre) && Blank(post) && IsType(t)
    ensures Closed(pre + t + post) && Trim(pre + t + post) == t
  {
    hide Unsplit, Depth, Nested, Trim, Blank;
    BlankFlat(pre, 0);
    BlankFlat(post, 0);
    ReadOn(pre, t, 0);
    ReadOn(pre + t, post, 0);
    TrimBlanks(pre, t, post);
    EndsTrimmed(t);
  }

  /**
   * In particular a list of types of any nesting comes back unchanged, whatever blanks are
   * written around each of them, the empty list included.
   */
  lemma TypesRoundTrip(name: string, pre: seq<string>, ts: seq<string>, post: seq<string>, after: string)
    requires |pre| == |ts| == |post| && '(' !in name && ')' !in after
    requires forall i :: 0 <= i < |ts| ==> IsType(ts[i]) && Blank(pre[i]) && Blank(post[i])
    ensures var inside := if ts == [] then "" else Join(Padded(pre, ts, post));
            Listed(Pieces(Inside(Signature(name, inside, after)), 0)) == ts
  {
    hide Inside, Pieces, Trim, Closed, IsType, Blank;
    TrimNothing();
    if ts == [] {
      NothingClosed();
      ParseInvertsJoin(name, [""], after);
    } else {
      var ps := Padded(pre, ts, post);
      forall i | 0 <= i < |ts| ensures Closed(ps[i]) && Trim(ps[i]) == ts[i] && ts[i] != "" {
        TypeNotEmpty(ts[i]);
        PaddedType(pre[i], ts[i], post[i]);
      }
      ClosedUnsplit(ps[|ps| - 1]);
      ListedIs(ps);
      ParseInvertsJoin(name, ps, after);
    }
  }

  lemma NothingClosed()
    ensures Unsplit("", 0)
  {
  }

  lemma TypeNotEmpty(t: string)
    requires IsType(t)
    ensures t != ""
  {
  }

  lemma ClosedUnsplit(s: string)
    requires Closed(s)
    ensures Unsplit(s, 0)
  {
  }

  /** Every closing parenthesis has its opening one before it. */
  predicate Nested(s: string, depth: int) {
    0 <= depth && (s == "" || Nested(s[1..], Step(depth, s[0])))
  }

  predicate IsBalanced(s: string) {
    Nested(s, 0) && Depth(s, 0) == 0
  }

  lemma {:induction false} ReadOn(s: string, t: string, depth: int)
    ensures Depth(s + t, depth) == Depth(t, Depth(s, depth))
    ensures Unsplit(s + t, depth) <==> Unsplit(s, depth) && Unsplit(t, Depth(s, depth))
    ensures Nested(s + t, depth) <==> Nested(s, depth) && Nested(t, Depth(s, depth))
  {
    if s == "" {
      assert s + t == t;
      assert Nested(t, depth) ==> 0 <= depth;
    } else {
      ReadOn(s[1..], t, Step(depth, s[0]));
      assert (s + t)[1..] == s[1..] + t;
    }
  }

  lemma {:induction false} OneDeeper(s: string, depth: int)
    requires Nested(s, depth)
    ensures Depth(s, depth + 1) == Depth(s, depth) + 1
    ensures Unsplit(s, depth + 1) && Nested(s, depth + 1)
  {
    if s != "" {
      OneDeeper(s[1..], Step(depth, s[0]));
    }
  }

  lemma {:induction false} JoinIsBalanced(ts: seq<string>)
    requires 0 < |ts| && forall i :: 0 <= i < |ts| ==> IsBalanced(ts[i])
    ensures IsBalanced(Join(ts))
  {
    if 1 < |ts| {
      var t := "," + Join(ts[1..]);
      JoinIsBalanced(ts[1..]);
      ReadOn(ts[0], t, 0);
      assert Join(ts) == ts[0] + t && t[1..] == Join(ts[1..]);
    }
  }

  lemma ClosingParenthesis()
    ensures Depth(")", 1) == 0 && Unsplit(")", 1) && Nested(")", 1)
  {
    assert ")"[1..] == "";
  }

  lemma WrapBalanced(j: string)
    requires IsBalanced(j)
    ensures Closed("(" + (j + ")")) && IsBalanced("(" + (j + ")"))
  {
    OneDeeper(j, 0);
    ClosingParenthesis();
    ReadOn(j, ")", 1);
    assert ("(" + (j + ")"))[1..] == j + ")";
  }

  /** Wrapping balanced types into a tuple gives a balanced type again, so the round trip reaches every depth. */
  lemma TupleIsType(ts: seq<string>)
    requires 0 < |ts| && forall i :: 0 <= i < |ts| ==> IsBalanced(ts[i])
    ensures IsType("(" + Join(ts) + ")") && IsBalanced("(" + Join(ts) + ")")
  {
    hide Trim, Closed, IsBalanced, Join;
    hide Depth, Unsplit, Nested, BLANKS;
    BlankCharacter('(');
    BlankCharacter(')');
    var t := "(" + Join(ts) + ")";
    JoinIsBalanced(ts);
    WrapBalanced(Join(ts));
    assert t == "(" + (Join(ts) + ")");
  }
}
