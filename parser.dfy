/**
 * The queries of the LL(1) table calculator as the program runs them:
 * loops over the constant production table that write their answers into
 * caller-supplied NULL-terminated arrays through `result[num++]`, with
 * local scratch arrays for the lists of the symbols they recurse into.
 * Each method is proved to compute the list its specification function
 * in module Grammar describes.
 */
module Parser {
  import opened Grammar

  /** The list `s` as array cells: every symbol a non-NULL pointer. */
  function Cells(s: seq<Token>): (c: seq<Option<Token>>)
    ensures |c| == |s| && forall k :: 0 <= k < |s| ==> c[k] == Some(s[k])
  {
    seq(|s|, k requires 0 <= k < |s| => Some(s[k]))
  }

  /** `a[..|s|]` holds the list `s`, and nothing is known beyond it. */
  ghost predicate Prefix(a: array<Option<Token>>, s: seq<Token>)
    reads a
  {
    |s| <= a.Length && a[..|s|] == Cells(s)
  }

  /** `a` holds the list `s` followed by its NULL terminator. */
  ghost predicate Holds(a: array<Option<Token>>, s: seq<Token>)
    reads a
  {
    |s| < a.Length && Prefix(a, s) && a[|s|] == None
  }

  /** The copy loop `for (ptr = temp; (curr = *ptr); ptr++) result[num++] = curr;`. */
  method AppendList(src: array<Option<Token>>, ghost s: seq<Token>,
                    result: array<Option<Token>>, num: nat, ghost acc: seq<Token>)
    returns (num': nat)
    requires src != result && Holds(src, s)
    requires num == |acc| && Prefix(result, acc) && num + |s| < result.Length
    modifies result
    ensures num' == |acc + s| && Prefix(result, acc + s)
  {
    num' := num;
    var j := 0;
    while src[j] != None
      invariant 0 <= j <= |s| && num' == num + j
      invariant src[..|s| + 1] == Cells(s) + [None]
      invariant result[..num'] == Cells(acc + s[..j])
      decreases |s| - j
    {
      assert src[j] == Some(s[j]);
      result[num'] := src[j];
      assert s[..j + 1] == s[..j] + [s[j]];
      assert (acc + s[..j + 1]) == (acc + s[..j]) + [s[j]];
      num' := num' + 1;
      j := j + 1;
    }
    assert s[..j] == s;
  }

  /** The search loop `for (ptr = list; (curr = *ptr); ptr++) if (tok == curr) ...`. */
  method Contains(a: array<Option<Token>>, ghost s: seq<Token>, tok: Token) returns (found: bool)
    requires Holds(a, s)
    ensures found <==> tok in s
  {
    var j := 0;
    while a[j] != None
      invariant 0 <= j <= |s|
      invariant tok !in s[..j]
      decreases |s| - j
    {
      if a[j] == Some(tok) {
        return true;
      }
      j := j + 1;
    }
    assert s[..j] == s;
    return false;
  }

  /** `nullable(tok)`. */
  method Nullable(g: Table, tok: Token) returns (b: bool)
    ensures b == IsNullable(g, tok)
    decreases Rank(tok)
  {
    if tok == TNull {
      return true;
    }
    if IsTerminal(tok) {
      return false;
    }
    var i := 0;
    while i < |g|
      invariant 0 <= i <= |g|
      invariant NullableFrom(g, tok, i) == NullableFrom(g, tok, 0)
    {
      var gen := g[i];
      if tok != gen.left {
        i := i + 1;
        continue;
      }
      var can := true;
      var k := 0;
      while k < |gen.right|
        invariant 0 <= k <= |gen.right|
        invariant Guarded(tok, gen.right[k..])
        invariant NullableRhs(g, tok, gen.right[k..]) == NullableRhs(g, tok, gen.right)
      {
        var c := Nullable(g, gen.right[k]);
        if !c {
          can := false;
          break;
        }
        assert gen.right[k..][1..] == gen.right[k + 1..];
        k := k + 1;
      }
      if can {
        return true;
      }
      i := i + 1;
    }
    return false;
  }

  /** `nullable2(toks)`. */
  method Nullable2(g: Table, toks: seq<Token>) returns (b: bool)
    ensures b == AllNullable(g, toks)
  {
    var k := 0;
    while k < |toks|
      invariant 0 <= k <= |toks|
      invariant forall j :: 0 <= j < k ==> IsNullable(g, toks[j])
    {
      var c := Nullable(g, toks[k]);
      if !c {
        return false;
      }
      k := k + 1;
    }
    return true;
  }

  /** `first_of(curr, temp)` followed by the copy of `temp` onto the end of
      `result`: the step the three list builders share. */
  method AppendFirst(g: Table, curr: Token, temp: array<Option<Token>>, result: array<Option<Token>>,
                     num: nat, ghost acc: seq<Token>) returns (num': nat)
    requires FitsScratch(g) && temp != result && temp.Length == 8
    requires num == |acc| && Prefix(result, acc) && num + |First(g, curr)| < result.Length
    modifies temp, result
    ensures num' == |acc + First(g, curr)| && Prefix(result, acc + First(g, curr))
    decreases Rank(curr), 3
  {
    assert FirstFitsTemp(g, curr);
    FirstOf(g, curr, temp);
    num' := AppendList(temp, First(g, curr), result, num, acc);
  }

  /** Regrouping a concatenation, stated once so that the step lemmas below
      can name the instance they need. */
  lemma Assoc(a: seq<Token>, b: seq<Token>, c: seq<Token>)
    ensures a + (b + c) == (a + b) + c
  {
  }

  /** One turn of the inner loop of `first_of`, on the right side `s` at `k`,
      where `acc` is what has been written and `tail` what the later
      productions will add to make `total`. */
  lemma FirstRhsAdvance(g: Table, left: Token, s: seq<Token>, k: nat, acc: seq<Token>,
                        tail: seq<Token>, total: seq<Token>)
    requires k < |s| && Guarded(left, s[k..]) && acc + FirstRhs(g, left, s[k..]) + tail == total
    ensures Rank(s[k]) < Rank(left) && |acc| + |First(g, s[k])| <= |total|
    ensures IsNullable(g, s[k]) ==>
      Guarded(left, s[k + 1..]) && (acc + First(g, s[k])) + FirstRhs(g, left, s[k + 1..]) + tail == total
    ensures !IsNullable(g, s[k]) ==> (acc + First(g, s[k])) + tail == total
  {
    assert s[k..][0] == s[k] && s[k..][1..] == s[k + 1..];
    var rest := if IsNullable(g, s[k]) then FirstRhs(g, left, s[k + 1..]) else [];
    assert FirstRhs(g, left, s[k..]) == First(g, s[k]) + rest;
    Assoc(acc, First(g, s[k]), rest);
    assert (acc + First(g, s[k])) + [] == acc + First(g, s[k]);
  }

  /** Reaching the end of a right side in the inner loop of `first_of`. */
  lemma FirstRhsDone(g: Table, left: Token, s: seq<Token>, acc: seq<Token>, tail: seq<Token>, total: seq<Token>)
    requires Guarded(left, s[|s|..]) && acc + FirstRhs(g, left, s[|s|..]) + tail == total
    ensures acc + tail == total
  {
    assert s[|s|..] == [] && acc + [] == acc;
  }

  /** One turn of the loop of `first_of2`, at position `k` of `toks`. */
  lemma FirstSeqAdvance(g: Table, toks: seq<Token>, k: nat, acc: seq<Token>)
    requires k < |toks| && toks[k] != TNull && acc + FirstSeq(g, toks[k..]) == FirstSeq(g, toks)
    ensures |acc| + |First(g, toks[k])| <= |FirstSeq(g, toks)|
    ensures IsNullable(g, toks[k]) ==> (acc + First(g, toks[k])) + FirstSeq(g, toks[k + 1..]) == FirstSeq(g, toks)
    ensures !IsNullable(g, toks[k]) ==> acc + First(g, toks[k]) == FirstSeq(g, toks)
  {
    FirstSeqStep(g, toks, k);
    var rest := if IsNullable(g, toks[k]) then FirstSeq(g, toks[k + 1..]) else [];
    Assoc(acc, First(g, toks[k]), rest);
    assert (acc + First(g, toks[k])) + [] == acc + First(g, toks[k]);
  }

  /** Where the loop of `first_of2` stops, at the end of the list or at "$". */
  lemma FirstSeqDone(g: Table, toks: seq<Token>, k: nat, acc: seq<Token>)
    requires k <= |toks| && (k == |toks| || toks[k] == TNull)
    requires acc + FirstSeq(g, toks[k..]) == FirstSeq(g, toks)
    ensures acc == FirstSeq(g, toks)
  {
    FirstSeqStep(g, toks, k);
    assert acc + [] == acc;
  }

  /** One turn of the inner loop of `follow_of` for `t`, on the right side
      `s` at `k`. */
  lemma FollowInAdvance(g: Table, t: Token, s: seq<Token>, k: nat, acc: seq<Token>,
                        tail: seq<Token>, total: seq<Token>)
    requires k < |s| && acc + FollowIn(g, t, s[k..]) + tail == total
    ensures s[k] != t ==> acc + FollowIn(g, t, s[k + 1..]) + tail == total
    ensures s[k] == t && k + 1 == |s| ==> acc + tail == total
    ensures s[k] == t && k + 1 < |s| ==>
      |acc| + |First(g, s[k + 1])| <= |total| &&
      (IsNullable(g, s[k + 1]) ==> (acc + First(g, s[k + 1])) + FollowIn(g, t, s[k + 1..]) + tail == total) &&
      (!IsNullable(g, s[k + 1]) ==> (acc + First(g, s[k + 1])) + tail == total)
  {
    assert s[k..][0] == s[k] && s[k..][1..] == s[k + 1..];
    if s[k] == t && k + 1 == |s| {
      assert acc + [] == acc;
    } else if s[k] == t {
      assert s[k..][1] == s[k + 1];
      var rest := if IsNullable(g, s[k + 1]) then FollowIn(g, t, s[k + 1..]) else [];
      assert FollowIn(g, t, s[k..]) == First(g, s[k + 1]) + rest;
      Assoc(acc, First(g, s[k + 1]), rest);
      assert (acc + First(g, s[k + 1])) + [] == acc + First(g, s[k + 1]);
    }
  }

  /** Reaching the end of a right side in the inner loop of `follow_of`. */
  lemma FollowInDone(g: Table, t: Token, s: seq<Token>, acc: seq<Token>, tail: seq<Token>, total: seq<Token>)
    requires acc + FollowIn(g, t, s[|s|..]) + tail == total
    ensures acc + tail == total
  {
    assert s[|s|..] == [] && acc + [] == acc;
  }

  /** Entering production `i` in the outer loop of `first_of` for `t`. */
  lemma FirstFromAdvance(g: Table, t: Token, i: nat, acc: seq<Token>, total: seq<Token>)
    requires IsNonTerminal(t) && i < |g| && acc + FirstFrom(g, t, i) == total
    ensures g[i].left != t ==> acc + FirstFrom(g, t, i + 1) == total
    ensures g[i].left == t ==>
      Guarded(t, g[i].right) && acc + FirstRhs(g, t, g[i].right) + FirstFrom(g, t, i + 1) == total
  {
    if g[i].left == t {
      Assoc(acc, FirstRhs(g, t, g[i].right), FirstFrom(g, t, i + 1));
    } else {
      assert [] + FirstFrom(g, t, i + 1) == FirstFrom(g, t, i + 1);
    }
  }

  /** Entering production `i` in the outer loop of `follow_of` for `t`. */
  lemma FollowFromAdvance(g: Table, t: Token, i: nat, acc: seq<Token>, total: seq<Token>)
    requires i < |g| && acc + FollowFrom(g, t, i) == total
    ensures acc + FollowIn(g, t, g[i].right) + FollowFrom(g, t, i + 1) == total
  {
    Assoc(acc, FollowIn(g, t, g[i].right), FollowFrom(g, t, i + 1));
  }

  /** The end of the outer loops: no production is left to contribute. */
  lemma FromDone(acc: seq<Token>, rest: seq<Token>, total: seq<Token>)
    requires rest == [] && acc + rest == total
    ensures acc == total
  {
    assert acc + [] == acc;
  }

  /** The closing `result[num] = NULL` of the three list builders. */
  method Seal(result: array<Option<Token>>, num: nat, ghost acc: seq<Token>)
    requires num == |acc| < result.Length && Prefix(result, acc)
    modifies result
    ensures Holds(result, acc)
  {
    result[num] := None;
    assert result[..num] == old(result[..num]);
  }

  /** The inner loop of `first_of(tok, ...)` over one right side `s` of
      `tok`, appending to `result` after `acc`; `tail` is what the later
      productions add to make `total`. */
  method FirstScan(g: Table, tok: Token, s: seq<Token>, temp: array<Option<Token>>,
                   result: array<Option<Token>>, num: nat, ghost acc: seq<Token>,
                   ghost tail: seq<Token>, ghost total: seq<Token>)
    returns (num': nat, ghost acc': seq<Token>)
    requires FitsScratch(g) && temp != result && temp.Length == 8
    requires Guarded(tok, s) && acc + FirstRhs(g, tok, s) + tail == total && |total| < result.Length
    requires num == |acc| && Prefix(result, acc)
    modifies temp, result
    ensures num' == |acc'| && Prefix(result, acc') && acc' + tail == total
    decreases Rank(tok), 0
  {
    num', acc' := num, acc;
    assert s[0..] == s;
    var k := 0;
    while k < |s|
      invariant 0 <= k <= |s|
      invariant Guarded(tok, s[k..])
      invariant acc' + FirstRhs(g, tok, s[k..]) + tail == total
      invariant num' == |acc'| && Prefix(result, acc')
    {
      var curr := s[k];
      FirstRhsAdvance(g, tok, s, k, acc', tail, total);
      num' := AppendFirst(g, curr, temp, result, num', acc');
      acc' := acc' + First(g, curr);
      var c := Nullable(g, curr);
      if !c {
        return;
      }
      k := k + 1;
    }
    FirstRhsDone(g, tok, s, acc', tail, total);
  }

  /** `first_of(tok, result)`. */
  method FirstOf(g: Table, tok: Token, result: array<Option<Token>>)
    requires FitsScratch(g) && |First(g, tok)| < result.Length
    modifies result
    ensures Holds(result, First(g, tok))
    decreases Rank(tok), 2
  {
    var num := 0;
    if tok == TNull {
      Seal(result, num, []);
      return;
    }
    if IsTerminal(tok) {
      result[num] := Some(tok);
      num := num + 1;
      assert result[..1] == Cells([tok]);
      Seal(result, num, [tok]);
      return;
    }
    FirstOfRules(g, tok, result);
  }

  /** The loop of `first_of(tok, ...)` over `gens[]` for a non-terminal
      `tok`, kept apart from the terminal cases above. */
  method FirstOfRules(g: Table, tok: Token, result: array<Option<Token>>)
    requires FitsScratch(g) && IsNonTerminal(tok) && |First(g, tok)| < result.Length
    modifies result
    ensures Holds(result, First(g, tok))
    decreases Rank(tok), 1
  {
    var num := 0;
    var temp := new Option<Token>[8];
    ghost var total := First(g, tok);
    ghost var acc: seq<Token> := [];
    assert acc + FirstFrom(g, tok, 0) == total;
    var i := 0;
    while i < |g|
      invariant 0 <= i <= |g|
      invariant acc + FirstFrom(g, tok, i) == total
      invariant num == |acc| && Prefix(result, acc)
    {
      FirstFromAdvance(g, tok, i, acc, total);
      if tok == g[i].left {
        num, acc := FirstScan(g, tok, g[i].right, temp, result, num, acc, FirstFrom(g, tok, i + 1), total);
      }
      i := i + 1;
    }
    FromDone(acc, FirstFrom(g, tok, i), total);
    Seal(result, num, acc);
  }

  /** `first_of2(toks, result)`. */
  method FirstOf2(g: Table, toks: seq<Token>, result: array<Option<Token>>)
    requires FitsScratch(g) && |FirstSeq(g, toks)| < result.Length
    modifies result
    ensures Holds(result, FirstSeq(g, toks))
  {
    var num := 0;
    var temp := new Option<Token>[8];
    ghost var acc: seq<Token> := [];
    var k := 0;
    while k < |toks|
      invariant 0 <= k <= |toks|
      invariant acc + FirstSeq(g, toks[k..]) == FirstSeq(g, toks)
      invariant num == |acc| && Prefix(result, acc)
    {
      var curr := toks[k];
      if curr == TNull {
        break;
      }
      FirstSeqAdvance(g, toks, k, acc);
      num := AppendFirst(g, curr, temp, result, num, acc);
      acc := acc + First(g, curr);
      var c := Nullable(g, curr);
      if !c {
        break;
      }
      k := k + 1;
    }
    if k == |toks| || toks[k] == TNull {
      FirstSeqDone(g, toks, k, acc);
    }
    Seal(result, num, acc);
  }

  /** The inner loop of `follow_of(tok, ...)` over one right side `s`,
      appending to `result` after `acc`. */
  method FollowScan(g: Table, tok: Token, s: seq<Token>, temp: array<Option<Token>>,
                    result: array<Option<Token>>, num: nat, ghost acc: seq<Token>,
                    ghost tail: seq<Token>, ghost total: seq<Token>)
    returns (num': nat, ghost acc': seq<Token>)
    requires FitsScratch(g) && temp != result && temp.Length == 8
    requires acc + FollowIn(g, tok, s) + tail == total && |total| < result.Length
    requires num == |acc| && Prefix(result, acc)
    modifies temp, result
    ensures num' == |acc'| && Prefix(result, acc') && acc' + tail == total
  {
    num', acc' := num, acc;
    assert s[0..] == s;
    var k := 0;
    while k < |s|
      invariant 0 <= k <= |s|
      invariant acc' + FollowIn(g, tok, s[k..]) + tail == total
      invariant num' == |acc'| && Prefix(result, acc')
    {
      var curr := s[k];
      FollowInAdvance(g, tok, s, k, acc', tail, total);
      if tok != curr {
        k := k + 1;
        continue;
      }
      if k + 1 == |s| {
        return;
      }
      var next := s[k + 1];
      num' := AppendFirst(g, next, temp, result, num', acc');
      acc' := acc' + First(g, next);
      var c := Nullable(g, next);
      if !c {
        return;
      }
      k := k + 1;
    }
    FollowInDone(g, tok, s, acc', tail, total);
  }

  /** `follow_of(tok, result)`. */
  method FollowOf(g: Table, tok: Token, result: array<Option<Token>>)
    requires FitsScratch(g) && |Follow(g, tok)| < result.Length
    modifies result
    ensures Holds(result, Follow(g, tok))
  {
    if IsTerminal(tok) || tok == NtS {
      Seal(result, 0, []);
      return;
    }
    FollowOfRules(g, tok, result);
  }

  /** The loop of `follow_of(tok, ...)` over `gens[]` for a non-terminal
      other than the start symbol. */
  method FollowOfRules(g: Table, tok: Token, result: array<Option<Token>>)
    requires FitsScratch(g) && IsNonTerminal(tok) && tok != NtS && |Follow(g, tok)| < result.Length
    modifies result
    ensures Holds(result, Follow(g, tok))
  {
    var num := 0;
    var temp := new Option<Token>[8];
    ghost var total := Follow(g, tok);
    ghost var acc: seq<Token> := [];
    assert acc + FollowFrom(g, tok, 0) == total;
    var i := 0;
    while i < |g|
      invariant 0 <= i <= |g|
      invariant acc + FollowFrom(g, tok, i) == total
      invariant num == |acc| && Prefix(result, acc)
    {
      FollowFromAdvance(g, tok, i, acc, total);
      num, acc := FollowScan(g, tok, g[i].right, temp, result, num, acc, FollowFrom(g, tok, i + 1), total);
      i := i + 1;
    }
    FromDone(acc, FollowFrom(g, tok, i), total);
    Seal(result, num, acc);
  }

  /** `gen_of(left, tok)`: the index in `gens[]` of the production it
      returns, or None for NULL. */
  method GenOf(g: Table, left: Token, tok: Token) returns (r: Option<nat>)
    requires FitsScratch(g)
    ensures r == GenFor(g, left, tok)
    ensures r.Some? ==> r.value < |g| && g[r.value].left == left
  {
    var first := new Option<Token>[16];
    var follow := new Option<Token>[8];
    var i := 0;
    while i < |g|
      invariant 0 <= i <= |g|
      invariant GenFrom(g, left, tok, i) == GenFor(g, left, tok)
    {
      var found := GenSelects(g, left, tok, i, first, follow);
      if found {
        return Some(i);
      }
      i := i + 1;
    }
    return None;
  }

  /** One iteration of the loop of `gen_of(left, tok)`: whether `gens[i]`
      is the production it returns, given that no earlier one was. */
  method GenSelects(g: Table, left: Token, tok: Token, i: nat,
                    first: array<Option<Token>>, follow: array<Option<Token>>)
    returns (found: bool)
    requires FitsScratch(g) && i < |g| && first != follow
    requires first.Length == 16 && follow.Length == 8
    modifies first, follow
    ensures found == Selects(g, left, tok, i)
  {
    var gen := g[i];
    if left != gen.left {
      return false;
    }
    assert RhsFitsFirst(g, i);
    FirstOf2(g, gen.right, first);
    found := Contains(first, FirstSeq(g, gen.right), tok);
    if found {
      return true;
    }
    var n := Nullable2(g, gen.right);
    if !n {
      return false;
    }
    assert FollowFitsArray(g, left);
    FollowOf(g, left, follow);
    found := Contains(follow, Follow(g, left), tok);
  }

  /** What `token_next` makes of one input character. */
  datatype Lexeme = EndOfInput | Symbol(t: Token) | Unknown(ch: char)

  /** The character-to-token mapping of `token_next`: a newline ends the
      input, the five terminal spellings give their terminals, and any other
      character is an error. */
  function TokenOf(ch: char): (r: Lexeme)
    ensures r.EndOfInput? <==> ch == '\n'
    ensures r.Symbol? ==> IsInputTerminal(r.t) && Name(r.t) == [ch]
    ensures r.Unknown? <==> ch !in "\n#adeb"
  {
    match ch
    case '\n' => EndOfInput
    case '#' => Symbol(TP)
    case 'a' => Symbol(TA)
    case 'd' => Symbol(TD)
    case 'e' => Symbol(TE)
    case 'b' => Symbol(TB)
    case _ => Unknown(ch)
  }

  /** Every input terminal is read back from its own spelling. */
  lemma TokenOfName(t: Token)
    requires IsInputTerminal(t)
    ensures |Name(t)| == 1 && TokenOf(Name(t)[0]) == Symbol(t)
  {
  }
}
