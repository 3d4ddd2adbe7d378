/**
 * The LL(1) grammar of the table-driven parser test and the queries asked
 * of it: which symbols derive the empty string (nullable), the FIRST lists,
 * the FOLLOW lists as the program computes them, and the parse-table entry
 * for a non-terminal and a look-ahead terminal.
 *
 * Results are lists, in the order the program produces them, duplicates
 * included. The functions here are the specification; the methods of
 * module Parser compute the same lists into NULL-terminated arrays.
 *
 * The queries are stated for any production table `g` whose recursion is
 * well founded (WellRanked below); `Gens` is the program's own table, and
 * the last section evaluates the queries on it.
 */
module Grammar {

  datatype Option<T> = None | Some(value: T)

  /** The tokens of the grammar. `TNull` is the empty symbol "$" (`t_null`),
      which the program classifies as a terminal. */
  datatype Token = NtS | NtH | NtM | NtA | TP | TA | TD | TE | TB | TNull

  predicate IsNonTerminal(t: Token) {
    t.NtS? || t.NtH? || t.NtM? || t.NtA?
  }

  /** `kind == TOKEN_KIND_T`; this includes the empty symbol. */
  predicate IsTerminal(t: Token) {
    !IsNonTerminal(t)
  }

  /** A terminal that can appear in the input: every terminal but "$". */
  predicate IsInputTerminal(t: Token) {
    IsTerminal(t) && t != TNull
  }

  /** The display string `sval` of each token. */
  function Name(t: Token): string {
    match t
    case NtS => "S" case NtH => "H" case NtM => "M" case NtA => "A"
    case TP => "#" case TA => "a" case TD => "d" case TE => "e" case TB => "b"
    case TNull => "$"
  }

  /** A production `left -> right`; `right` is the list before its NULL terminator. */
  datatype Gen = Gen(left: Token, sval: string, right: seq<Token>)

  /** `gens[]`, in table order. */
  const Gens: Table := [
    Gen(NtS, "S->aH#", [TA, NtH, TP]),
    Gen(NtH, "H->aMd", [TA, NtM, TD]),
    Gen(NtH, "H->d", [TD]),
    Gen(NtM, "M->Ab", [NtA, TB]),
    Gen(NtM, "M->", [TNull]),
    Gen(NtA, "A->aM", [TA, NtM]),
    Gen(NtA, "A->e", [TE])
  ]

  /* ---------------------------------------------------------------------
   * Termination. The program recurses from a symbol into the symbols of
   * its productions, and would loop forever on a left-recursive grammar.
   * On its table it stops because, in every production, each symbol up
   * to and including the first input terminal ranks below the left side,
   * and the scan of a right side never passes an input terminal (such a
   * terminal is never nullable).
   * ------------------------------------------------------------------- */

  function Rank(t: Token): nat {
    match t
    case NtM => 2
    case NtA => 1
    case NtS => 1
    case NtH => 1
    case _ => 0
  }

  ghost predicate Guarded(left: Token, s: seq<Token>) {
    s == [] || (Rank(s[0]) < Rank(left) && (IsInputTerminal(s[0]) || Guarded(left, s[1..])))
  }

  /** Every production of `g` is guarded: the recursion of the queries ends. */
  ghost predicate WellRanked(g: seq<Gen>) {
    forall i :: 0 <= i < |g| ==> Guarded(g[i].left, g[i].right)
  }

  /** A production table on which the queries terminate. */
  type Table = g: seq<Gen> | WellRanked(g) witness []

  /* -------------------------------- nullable ------------------------------- */

  /** `nullable(tok)`. */
  function IsNullable(g: Table, t: Token): (b: bool)
    ensures b ==> !IsInputTerminal(t)
    decreases Rank(t), 2
  {
    if t == TNull then true
    else if IsTerminal(t) then false
    else NullableFrom(g, t, 0)
  }

  /** Some production among `gens[i..]` with left side `t` has a nullable right side. */
  function NullableFrom(g: Table, t: Token, i: nat): bool
    requires IsNonTerminal(t) && i <= |g|
    decreases Rank(t), 1, |g| - i
  {
    if i == |g| then false
    else (g[i].left == t && NullableRhs(g, t, g[i].right)) || NullableFrom(g, t, i + 1)
  }

  /** The inner loop of `nullable`: every symbol of `s` is nullable, scanning
      left to right and stopping at the first one that is not. */
  function NullableRhs(g: Table, left: Token, s: seq<Token>): bool
    requires Guarded(left, s)
    decreases Rank(left), 0, |s|
  {
    s == [] || (IsNullable(g, s[0]) && NullableRhs(g, left, s[1..]))
  }

  /** `nullable2(toks)`: every symbol of the list is nullable. */
  predicate AllNullable(g: Table, s: seq<Token>) {
    forall k :: 0 <= k < |s| ==> IsNullable(g, s[k])
  }

  lemma {:induction false} NullableRhsIsAllNullable(g: Table, left: Token, s: seq<Token>)
    requires Guarded(left, s)
    ensures NullableRhs(g, left, s) <==> AllNullable(g, s)
    decreases |s|
  {
    if s != [] {
      if IsNullable(g, s[0]) {
        NullableRhsIsAllNullable(g, left, s[1..]);
        assert forall k :: 0 < k < |s| ==> s[k] == s[1..][k - 1];
      }
    }
  }

  lemma {:induction false} NullableFromIsExists(g: Table, t: Token, i: nat)
    requires IsNonTerminal(t) && i <= |g|
    ensures NullableFrom(g, t, i) <==>
      exists j :: i <= j < |g| && g[j].left == t && AllNullable(g, g[j].right)
    decreases |g| - i
  {
    if i < |g| {
      if g[i].left == t {
        NullableRhsIsAllNullable(g, t, g[i].right);
      }
      NullableFromIsExists(g, t, i + 1);
    }
  }

  /** `nullable` as a grammar property: "$" is nullable, no other terminal is,
      and a non-terminal is nullable exactly when one of its productions has
      an all-nullable right side. */
  lemma NullableCharacterized(g: Table, t: Token)
    ensures IsNullable(g, TNull)
    ensures IsInputTerminal(t) ==> !IsNullable(g, t)
    ensures IsNonTerminal(t) ==>
      (IsNullable(g, t) <==> exists j :: 0 <= j < |g| && g[j].left == t && AllNullable(g, g[j].right))
  {
    if IsNonTerminal(t) {
      NullableFromIsExists(g, t, 0);
    }
  }

  /* --------------------------------- FIRST --------------------------------- */

  /** The list holds input terminals only: no non-terminal and no "$". */
  predicate Terminals(s: seq<Token>) {
    forall k :: 0 <= k < |s| ==> IsInputTerminal(s[k])
  }

  /** `first_of(tok)`. */
  function First(g: Table, t: Token): (r: seq<Token>)
    decreases Rank(t), 2
  {
    if t == TNull then []
    else if IsTerminal(t) then [t]
    else FirstFrom(g, t, 0)
  }

  /** The contributions of the productions `gens[i..]` with left side `t`. */
  function FirstFrom(g: Table, t: Token, i: nat): (r: seq<Token>)
    requires IsNonTerminal(t) && i <= |g|
    decreases Rank(t), 1, |g| - i
  {
    if i == |g| then []
    else (if g[i].left == t then FirstRhs(g, t, g[i].right) else []) + FirstFrom(g, t, i + 1)
  }

  /** The inner loop of `first_of`: FIRST of each symbol of `s`, up to and
      including the first symbol that is not nullable. */
  function FirstRhs(g: Table, left: Token, s: seq<Token>): (r: seq<Token>)
    requires Guarded(left, s)
    decreases Rank(left), 0, |s|
  {
    if s == [] then []
    else First(g, s[0]) + (if IsNullable(g, s[0]) then FirstRhs(g, left, s[1..]) else [])
  }

  /** `first_of2(toks)`: like the inner loop of `first_of`, but the scan
      also stops, without contributing, at "$". */
  function FirstSeq(g: Table, s: seq<Token>): (r: seq<Token>)
  {
    if s == [] || s[0] == TNull then []
    else First(g, s[0]) + (if IsNullable(g, s[0]) then FirstSeq(g, s[1..]) else [])
  }

  /** One step of the scan of `first_of2`, from position `k`. */
  lemma FirstSeqStep(g: Table, s: seq<Token>, k: nat)
    requires k <= |s|
    ensures k == |s| ==> FirstSeq(g, s[k..]) == []
    ensures k < |s| && s[k] == TNull ==> FirstSeq(g, s[k..]) == []
    ensures k < |s| && s[k] != TNull ==>
      FirstSeq(g, s[k..]) == First(g, s[k]) + (if IsNullable(g, s[k]) then FirstSeq(g, s[k + 1..]) else [])
  {
    if k < |s| {
      assert s[k..][1..] == s[k + 1..];
    }
  }

  /** "$" occurs in a right side only as the whole of it, as in `M -> $`. */
  ghost predicate NullOnlyAlone(s: seq<Token>) {
    forall k :: 0 <= k < |s| && s[k] == TNull ==> |s| == 1
  }

  lemma {:induction false} FirstRhsIsFirstSeq(g: Table, left: Token, s: seq<Token>)
    requires Guarded(left, s) && NullOnlyAlone(s)
    ensures FirstRhs(g, left, s) == FirstSeq(g, s)
    decreases |s|
  {
    if s != [] && s[0] != TNull && IsNullable(g, s[0]) {
      assert forall k :: 0 <= k < |s[1..]| ==> s[1..][k] == s[k + 1];
      FirstRhsIsFirstSeq(g, left, s[1..]);
    }
  }

  /** FIRST of a non-terminal concatenated from `first_of2` of its right sides. */
  function FirstOfProductions(g: Table, t: Token, i: nat): seq<Token>
    requires i <= |g|
    decreases |g| - i
  {
    if i == |g| then []
    else (if g[i].left == t then FirstSeq(g, g[i].right) else []) + FirstOfProductions(g, t, i + 1)
  }

  lemma {:induction false} FirstFromIsFirstOfProductions(g: Table, t: Token, i: nat)
    requires IsNonTerminal(t) && i <= |g|
    requires forall j :: 0 <= j < |g| ==> NullOnlyAlone(g[j].right)
    ensures FirstFrom(g, t, i) == FirstOfProductions(g, t, i)
    decreases |g| - i
  {
    if i < |g| {
      if g[i].left == t {
        FirstRhsIsFirstSeq(g, t, g[i].right);
      }
      FirstFromIsFirstOfProductions(g, t, i + 1);
    }
  }

  /** `first_of` on each kind of symbol: nothing for "$", the terminal itself
      for an input terminal, and for a non-terminal the concatenation, over
      its productions in table order, of what `first_of2` gives for their
      right sides (when "$" only ever stands alone in a right side). */
  lemma FirstCharacterized(g: Table, t: Token)
    requires forall j :: 0 <= j < |g| ==> NullOnlyAlone(g[j].right)
    ensures First(g, TNull) == []
    ensures IsInputTerminal(t) ==> First(g, t) == [t]
    ensures IsNonTerminal(t) ==> First(g, t) == FirstOfProductions(g, t, 0)
  {
    if IsNonTerminal(t) {
      FirstFromIsFirstOfProductions(g, t, 0);
    }
  }

  lemma TerminalsAppend(a: seq<Token>, b: seq<Token>)
    requires Terminals(a) && Terminals(b)
    ensures Terminals(a + b)
  {
    assert forall k :: 0 <= k < |a + b| ==> (a + b)[k] == if k < |a| then a[k] else b[k - |a|];
  }

  /** FIRST lists hold input terminals only: never a non-terminal, never "$". */
  lemma {:induction false} FirstIsTerminals(g: Table, t: Token)
    ensures Terminals(First(g, t))
    decreases Rank(t), 2
  {
    if IsNonTerminal(t) {
      FirstFromIsTerminals(g, t, 0);
    }
  }

  lemma {:induction false} FirstFromIsTerminals(g: Table, t: Token, i: nat)
    requires IsNonTerminal(t) && i <= |g|
    ensures Terminals(FirstFrom(g, t, i))
    decreases Rank(t), 1, |g| - i
  {
    if i < |g| {
      if g[i].left == t {
        FirstRhsIsTerminals(g, t, g[i].right);
        FirstFromIsTerminals(g, t, i + 1);
        TerminalsAppend(FirstRhs(g, t, g[i].right), FirstFrom(g, t, i + 1));
      } else {
        FirstFromIsTerminals(g, t, i + 1);
        assert FirstFrom(g, t, i) == [] + FirstFrom(g, t, i + 1);
      }
    }
  }

  lemma {:induction false} FirstRhsIsTerminals(g: Table, left: Token, s: seq<Token>)
    requires Guarded(left, s)
    ensures Terminals(FirstRhs(g, left, s))
    decreases Rank(left), 0, |s|
  {
    if s != [] {
      FirstIsTerminals(g, s[0]);
      if IsNullable(g, s[0]) {
        FirstRhsIsTerminals(g, left, s[1..]);
        TerminalsAppend(First(g, s[0]), FirstRhs(g, left, s[1..]));
      } else {
        assert FirstRhs(g, left, s) == First(g, s[0]) + [];
      }
    }
  }

  lemma {:induction false} FirstSeqIsTerminals(g: Table, s: seq<Token>)
    ensures Terminals(FirstSeq(g, s))
    decreases |s|
  {
    if s != [] && s[0] != TNull {
      FirstIsTerminals(g, s[0]);
      if IsNullable(g, s[0]) {
        FirstSeqIsTerminals(g, s[1..]);
        TerminalsAppend(First(g, s[0]), FirstSeq(g, s[1..]));
      } else {
        assert FirstSeq(g, s) == First(g, s[0]) + [];
      }
    }
  }

  /* -------------------------------- FOLLOW --------------------------------- */

  /** `follow_of(tok)`. Not the textbook FOLLOW: nothing is added when the
      symbol ends a production, and the scan of a production stops at the
      first non-nullable successor. */
  function Follow(g: Table, t: Token): (r: seq<Token>)
  {
    if IsTerminal(t) || t == NtS then [] else FollowFrom(g, t, 0)
  }

  function FollowFrom(g: Table, t: Token, i: nat): (r: seq<Token>)
    requires i <= |g|
    decreases |g| - i
  {
    if i == |g| then [] else FollowIn(g, t, g[i].right) + FollowFrom(g, t, i + 1)
  }

  /** The scan of one right side: at each occurrence of `t` that has a
      successor, add FIRST of the successor, and go on scanning only if the
      successor is nullable. */
  function FollowIn(g: Table, t: Token, s: seq<Token>): (r: seq<Token>)
  {
    if |s| == 0 then []
    else if s[0] != t then FollowIn(g, t, s[1..])
    else if |s| == 1 then []
    else First(g, s[1]) + (if IsNullable(g, s[1]) then FollowIn(g, t, s[1..]) else [])
  }

  lemma {:induction false} FollowInIsTerminals(g: Table, t: Token, s: seq<Token>)
    ensures Terminals(FollowIn(g, t, s))
    decreases |s|
  {
    if |s| > 1 && s[0] == t {
      FirstIsTerminals(g, s[1]);
      if IsNullable(g, s[1]) {
        FollowInIsTerminals(g, t, s[1..]);
        TerminalsAppend(First(g, s[1]), FollowIn(g, t, s[1..]));
      } else {
        assert FollowIn(g, t, s) == First(g, s[1]) + [];
      }
    } else if |s| > 0 {
      FollowInIsTerminals(g, t, s[1..]);
    }
  }

  lemma {:induction false} FollowFromIsTerminals(g: Table, t: Token, i: nat)
    requires i <= |g|
    ensures Terminals(FollowFrom(g, t, i))
    decreases |g| - i
  {
    if i < |g| {
      FollowInIsTerminals(g, t, g[i].right);
      FollowFromIsTerminals(g, t, i + 1);
      TerminalsAppend(FollowIn(g, t, g[i].right), FollowFrom(g, t, i + 1));
    }
  }

  /** FOLLOW lists hold input terminals only. */
  lemma FollowIsTerminals(g: Table, t: Token)
    ensures Terminals(Follow(g, t))
  {
    if !(IsTerminal(t) || t == NtS) {
      FollowFromIsTerminals(g, t, 0);
    }
  }

  /* ------------------------------ parse table ------------------------------ */

  /** Production `gens[i]` is a table entry for (`left`, `t`): `t` starts its
      right side, or the right side is nullable and `t` follows `left`. */
  predicate Selects(g: Table, left: Token, t: Token, i: nat)
    requires i < |g|
  {
    g[i].left == left &&
    (t in FirstSeq(g, g[i].right) || (AllNullable(g, g[i].right) && t in Follow(g, left)))
  }

  /** `gen_of(left, tok)` as an index into `gens[]`, searching from `i`. */
  function GenFrom(g: Table, left: Token, t: Token, i: nat): Option<nat>
    requires i <= |g|
    decreases |g| - i
  {
    if i == |g| then None
    else if Selects(g, left, t, i) then Some(i)
    else GenFrom(g, left, t, i + 1)
  }

  function GenFor(g: Table, left: Token, t: Token): Option<nat>
  {
    GenFrom(g, left, t, 0)
  }

  lemma {:induction false} GenFromIsFirstSelecting(g: Table, left: Token, t: Token, i: nat)
    requires i <= |g|
    ensures GenFrom(g, left, t, i).Some? ==>
      var j := GenFrom(g, left, t, i).value;
      i <= j < |g| && Selects(g, left, t, j) && forall k :: i <= k < j ==> !Selects(g, left, t, k)
    ensures GenFrom(g, left, t, i).None? ==> forall k :: i <= k < |g| ==> !Selects(g, left, t, k)
    decreases |g| - i
  {
    if i < |g| && !Selects(g, left, t, i) {
      GenFromIsFirstSelecting(g, left, t, i + 1);
      var r := GenFrom(g, left, t, i + 1);
      assert GenFrom(g, left, t, i) == r;
      var end := if r.Some? then r.value else |g|;
      forall k | i <= k < end
        ensures !Selects(g, left, t, k)
      {
        if k != i {
          assert i + 1 <= k;
        }
      }
    }
  }

  /** `gen_of` returns the first production in table order that is an entry
      for (`left`, `t`), and NULL when none is; a returned production always
      has left side `left`. */
  lemma GenForIsFirstSelecting(g: Table, left: Token, t: Token)
    ensures GenFor(g, left, t).Some? ==>
      var j := GenFor(g, left, t).value;
      j < |g| && g[j].left == left && Selects(g, left, t, j) &&
      forall k :: 0 <= k < j ==> !Selects(g, left, t, k)
    ensures GenFor(g, left, t).None? <==> forall k :: 0 <= k < |g| ==> !Selects(g, left, t, k)
  {
    GenFromIsFirstSelecting(g, left, t, 0);
  }

  /* ---------------------------------------------------------------------
   * Scratch space. The program writes FIRST lists into `Token *temp[8]`,
   * FOLLOW lists into `follow[8]` and `first_of2` lists into `first[16]`,
   * each followed by its NULL terminator; a table fits when no list
   * overflows its array.
   * ------------------------------------------------------------------- */

  ghost predicate FitsScratch(g: Table)
  {
    (forall t :: FirstFitsTemp(g, t)) &&
    (forall t :: FollowFitsArray(g, t)) &&
    (forall i :: 0 <= i < |g| ==> RhsFitsFirst(g, i))
  }

  ghost predicate FirstFitsTemp(g: Table, t: Token) {
    |First(g, t)| < 8
  }

  ghost predicate FollowFitsArray(g: Table, t: Token) {
    |Follow(g, t)| < 8
  }

  ghost predicate RhsFitsFirst(g: Table, i: nat)
    requires i < |g|
  {
    |FirstSeq(g, g[i].right)| < 16
  }

  /* ------------------------- the built-in grammar -------------------------- */

  lemma NullableOfM()
    ensures IsNullable(Gens, NtM)
  {
    assert NullableFrom(Gens, NtM, 4);
  }

  lemma NullableOfA()
    ensures !IsNullable(Gens, NtA)
  {
    assert !NullableFrom(Gens, NtA, 5);
  }

  lemma NullableOfS()
    ensures !IsNullable(Gens, NtS)
  {
    assert !NullableFrom(Gens, NtS, 1);
  }

  lemma NullableOfH()
    ensures !IsNullable(Gens, NtH)
  {
    assert !NullableFrom(Gens, NtH, 1);
  }

  /** Only `M` derives the empty string. */
  lemma NullableOfGrammar()
    ensures IsNullable(Gens, NtM)
    ensures !IsNullable(Gens, NtS) && !IsNullable(Gens, NtH) && !IsNullable(Gens, NtA)
  {
    NullableOfM();
    NullableOfA();
    NullableOfS();
    NullableOfH();
  }

  lemma FirstOfA()
    ensures First(Gens, NtA) == [TA, TE]
  {
    assert FirstFrom(Gens, NtA, 5) == [TA, TE];
  }

  lemma FirstOfM()
    ensures First(Gens, NtM) == [TA, TE]
  {
    FirstOfA();
    NullableOfA();
    assert FirstRhs(Gens, NtM, [NtA, TB]) == [TA, TE];
    assert FirstFrom(Gens, NtM, 3) == [TA, TE];
  }

  lemma FirstOfH()
    ensures First(Gens, NtH) == [TA, TD]
  {
    assert FirstFrom(Gens, NtH, 3) == [];
    assert FirstFrom(Gens, NtH, 2) == [TD];
    assert FirstFrom(Gens, NtH, 1) == [TA, TD];
  }

  lemma FirstOfS()
    ensures First(Gens, NtS) == [TA]
  {
    assert FirstFrom(Gens, NtS, 0) == [TA];
  }

  lemma FirstOfGrammar()
    ensures First(Gens, NtS) == [TA]
    ensures First(Gens, NtH) == [TA, TD]
    ensures First(Gens, NtM) == [TA, TE]
    ensures First(Gens, NtA) == [TA, TE]
  {
    FirstOfS();
    FirstOfH();
    FirstOfM();
    FirstOfA();
  }

  lemma FirstSeqOfS()
    ensures FirstSeq(Gens, [TA, NtH, TP]) == [TA]
  {
    assert First(Gens, TA) == [TA] && !IsNullable(Gens, TA);
  }

  lemma FirstSeqOfH()
    ensures FirstSeq(Gens, [TA, NtM, TD]) == [TA] && FirstSeq(Gens, [TD]) == [TD]
  {
    assert First(Gens, TA) == [TA] && !IsNullable(Gens, TA);
    assert First(Gens, TD) == [TD] && !IsNullable(Gens, TD);
  }

  lemma FirstSeqOfM()
    ensures FirstSeq(Gens, [NtA, TB]) == [TA, TE] && FirstSeq(Gens, [TNull]) == []
  {
    FirstOfA();
    NullableOfA();
  }

  lemma FirstSeqOfA()
    ensures FirstSeq(Gens, [TA, NtM]) == [TA] && FirstSeq(Gens, [TE]) == [TE]
  {
    assert First(Gens, TA) == [TA] && !IsNullable(Gens, TA);
    assert First(Gens, TE) == [TE] && !IsNullable(Gens, TE);
  }

  /** What `first_of2` gives for each right side of the table. */
  lemma FirstSeqOfGrammar()
    ensures FirstSeq(Gens, [TA, NtH, TP]) == [TA] && FirstSeq(Gens, [TA, NtM, TD]) == [TA]
    ensures FirstSeq(Gens, [TD]) == [TD] && FirstSeq(Gens, [NtA, TB]) == [TA, TE]
    ensures FirstSeq(Gens, [TNull]) == [] && FirstSeq(Gens, [TA, NtM]) == [TA]
    ensures FirstSeq(Gens, [TE]) == [TE]
  {
    FirstSeqOfS();
    FirstSeqOfH();
    FirstSeqOfM();
    FirstSeqOfA();
  }

  lemma FollowOfH()
    ensures Follow(Gens, NtH) == [TP]
  {
    assert First(Gens, TP) == [TP] && !IsNullable(Gens, TP);
    assert FollowIn(Gens, NtH, [NtH, TP]) == [TP];
    assert FollowFrom(Gens, NtH, 1) == [];
  }

  lemma FollowOfM()
    ensures Follow(Gens, NtM) == [TD]
  {
    assert First(Gens, TD) == [TD] && !IsNullable(Gens, TD);
    assert FollowIn(Gens, NtM, [NtM, TD]) == [TD];
    assert FollowIn(Gens, NtM, [TA, NtM]) == [];
    assert FollowFrom(Gens, NtM, 2) == [];
  }

  lemma FollowOfA()
    ensures Follow(Gens, NtA) == [TB]
  {
    assert First(Gens, TB) == [TB] && !IsNullable(Gens, TB);
    assert FollowIn(Gens, NtA, [NtA, TB]) == [TB];
    assert FollowFrom(Gens, NtA, 4) == [];
    assert FollowFrom(Gens, NtA, 0) == [TB];
  }

  /** FOLLOW on the table: note that `A` gets only `b`, although `A -> a M`
      ends with `M`; the program adds nothing at the end of a production. */
  lemma FollowOfGrammar()
    ensures Follow(Gens, NtS) == []
    ensures Follow(Gens, NtH) == [TP]
    ensures Follow(Gens, NtM) == [TD]
    ensures Follow(Gens, NtA) == [TB]
  {
    FollowOfH();
    FollowOfM();
    FollowOfA();
  }

  /** Stepping `GenFrom` over one production, for the table lemmas below. */
  lemma GenFromStep(g: Table, left: Token, t: Token, i: nat)
    requires i < |g|
    ensures g[i].left != left ==> GenFrom(g, left, t, i) == GenFrom(g, left, t, i + 1)
    ensures Selects(g, left, t, i) ==> GenFrom(g, left, t, i) == Some(i)
    ensures !Selects(g, left, t, i) ==> GenFrom(g, left, t, i) == GenFrom(g, left, t, i + 1)
  {
  }

  /** The left and right sides of the program's table, row by row. Stating
      the table lemmas for any `g` of this shape keeps the verifier from
      evaluating the whole literal table inside each of them. */
  ghost predicate Shaped(g: seq<Gen>) {
    |g| == 7 &&
    g[0].left == NtS && g[0].right == [TA, NtH, TP] &&
    g[1].left == NtH && g[1].right == [TA, NtM, TD] &&
    g[2].left == NtH && g[2].right == [TD] &&
    g[3].left == NtM && g[3].right == [NtA, TB] &&
    g[4].left == NtM && g[4].right == [TNull] &&
    g[5].left == NtA && g[5].right == [TA, NtM] &&
    g[6].left == NtA && g[6].right == [TE]
  }

  lemma GensShaped()
    ensures Shaped(Gens)
  {
  }

  /** In `gens[]`, "$" is only ever a whole right side (`M -> $`). */
  lemma GensNullOnlyAlone()
    ensures forall j :: 0 <= j < |Gens| ==> NullOnlyAlone(Gens[j].right)
  {
    GensShaped();
    forall j | 0 <= j < |Gens|
      ensures NullOnlyAlone(Gens[j].right)
    {
      assert j in {0, 1, 2, 3, 4, 5, 6};
    }
  }

  /** `first_of` on the grammar of `gens[]` is what `FirstCharacterized`
      describes for every symbol. */
  lemma GensFirstCharacterized(t: Token)
    ensures First(Gens, TNull) == []
    ensures IsInputTerminal(t) ==> First(Gens, t) == [t]
    ensures IsNonTerminal(t) ==> First(Gens, t) == FirstOfProductions(Gens, t, 0)
  {
    GensNullOnlyAlone();
    FirstCharacterized(Gens, t);
  }

  /** Rows from `i` on whose left side is not `left` select nothing: the
      search from `i` ends with NULL. */
  lemma {:induction false} GenFromNoneBeyond(g: Table, left: Token, t: Token, i: nat)
    requires i <= |g| && forall j :: i <= j < |g| ==> g[j].left != left
    ensures GenFrom(g, left, t, i) == None
    decreases |g| - i
  {
    if i < |g| {
      GenFromNoneBeyond(g, left, t, i + 1);
    }
  }

  /** Rows `i..k` whose left side is not `left` are skipped by the search. */
  lemma {:induction false} GenFromSkip(g: Table, left: Token, t: Token, i: nat, k: nat)
    requires i <= k <= |g| && forall j :: i <= j < k ==> g[j].left != left
    ensures GenFrom(g, left, t, i) == GenFrom(g, left, t, k)
    decreases k - i
  {
    if i < k {
      GenFromSkip(g, left, t, i + 1, k);
    }
  }

  /** The row of `S`: only `a` selects `S->aH#`. */
  lemma TableOfS(g: Table, t: Token)
    requires Shaped(g) && FirstSeq(g, [TA, NtH, TP]) == [TA]
    ensures GenFor(g, NtS, t) == if t == TA then Some(0) else None
  {
    assert !IsNullable(g, TA);
    GenFromStep(g, NtS, t, 0);
    GenFromNoneBeyond(g, NtS, t, 1);
  }

  /** The row of `H`: `a` selects `H->aMd`, `d` selects `H->d`, every other
      terminal nothing. */
  lemma TableOfH(g: Table, t: Token)
    requires Shaped(g) && FirstSeq(g, [TA, NtM, TD]) == [TA] && FirstSeq(g, [TD]) == [TD]
    ensures GenFor(g, NtH, t) == if t == TA then Some(1) else if t == TD then Some(2) else None
  {
    assert !IsNullable(g, TA) && !IsNullable(g, TD);
    GenFromStep(g, NtH, t, 0);
    GenFromStep(g, NtH, t, 1);
    GenFromStep(g, NtH, t, 2);
    GenFromNoneBeyond(g, NtH, t, 3);
  }

  /** The row of `M`: `a` and `e` select `M->Ab`, `d` selects the empty
      production through FOLLOW(M), every other terminal nothing. */
  lemma TableOfM(g: Table, t: Token)
    requires Shaped(g) && FirstSeq(g, [NtA, TB]) == [TA, TE] && FirstSeq(g, [TNull]) == []
    requires !IsNullable(g, NtA) && Follow(g, NtM) == [TD]
    ensures GenFor(g, NtM, t) ==
      if t == TA || t == TE then Some(3) else if t == TD then Some(4) else None
  {
    assert !AllNullable(g, [NtA, TB]) && AllNullable(g, [TNull]);
    GenFromSkip(g, NtM, t, 0, 3);
    GenFromStep(g, NtM, t, 3);
    GenFromStep(g, NtM, t, 4);
    GenFromNoneBeyond(g, NtM, t, 5);
  }

  /** The row of `A`: `a` selects `A->aM`, `e` selects `A->e`, every other
      terminal nothing. */
  lemma TableOfA(g: Table, t: Token)
    requires Shaped(g) && FirstSeq(g, [TA, NtM]) == [TA] && FirstSeq(g, [TE]) == [TE]
    ensures GenFor(g, NtA, t) == if t == TA then Some(5) else if t == TE then Some(6) else None
  {
    assert !IsNullable(g, TA) && !IsNullable(g, TE);
    GenFromSkip(g, NtA, t, 0, 5);
    GenFromStep(g, NtA, t, 5);
    GenFromStep(g, NtA, t, 6);
  }

  /** The parse table `main` prints, all twenty cells: the production
      `gen_of` selects for each non-terminal and each input terminal, with
      NULL (an empty cell) where none qualifies; (M, d) selects the empty
      production. */
  lemma ParseTableOfGrammar()
    ensures GenFor(Gens, NtS, TP) == None && GenFor(Gens, NtS, TA) == Some(0)
    ensures GenFor(Gens, NtS, TD) == None && GenFor(Gens, NtS, TE) == None && GenFor(Gens, NtS, TB) == None
    ensures GenFor(Gens, NtH, TP) == None && GenFor(Gens, NtH, TA) == Some(1)
    ensures GenFor(Gens, NtH, TD) == Some(2) && GenFor(Gens, NtH, TE) == None && GenFor(Gens, NtH, TB) == None
    ensures GenFor(Gens, NtM, TP) == None && GenFor(Gens, NtM, TA) == Some(3)
    ensures GenFor(Gens, NtM, TD) == Some(4) && GenFor(Gens, NtM, TE) == Some(3) && GenFor(Gens, NtM, TB) == None
    ensures GenFor(Gens, NtA, TP) == None && GenFor(Gens, NtA, TA) == Some(5)
    ensures GenFor(Gens, NtA, TD) == None && GenFor(Gens, NtA, TE) == Some(6) && GenFor(Gens, NtA, TB) == None
    ensures Gens[0].sval == "S->aH#" && Gens[1].sval == "H->aMd" && Gens[2].sval == "H->d"
    ensures Gens[3].sval == "M->Ab" && Gens[4].sval == "M->" && Gens[5].sval == "A->aM" && Gens[6].sval == "A->e"
  {
    GensShaped();
    NullableOfA();
    FirstSeqOfGrammar();
    FollowOfM();
    TableOfS(Gens, TP); TableOfS(Gens, TA); TableOfS(Gens, TD); TableOfS(Gens, TE); TableOfS(Gens, TB);
    TableOfH(Gens, TP); TableOfH(Gens, TA); TableOfH(Gens, TD); TableOfH(Gens, TE); TableOfH(Gens, TB);
    TableOfM(Gens, TP); TableOfM(Gens, TA); TableOfM(Gens, TD); TableOfM(Gens, TE); TableOfM(Gens, TB);
    TableOfA(Gens, TP); TableOfA(Gens, TA); TableOfA(Gens, TD); TableOfA(Gens, TE); TableOfA(Gens, TB);
  }

  lemma FirstFits(t: Token)
    ensures |First(Gens, t)| < 8
  {
    if IsNonTerminal(t) {
      FirstOfGrammar();
    }
  }

  lemma FollowFits(t: Token)
    ensures |Follow(Gens, t)| < 8
  {
    if IsNonTerminal(t) {
      FollowOfGrammar();
    }
  }

  lemma FirstSeqFits(i: nat)
    requires i < |Gens|
    ensures |FirstSeq(Gens, Gens[i].right)| < 16
  {
    FirstSeqOfGrammar();
    assert Gens[i].right in [[TA, NtH, TP], [TA, NtM, TD], [TD], [NtA, TB], [TNull], [TA, NtM], [TE]];
  }

  /** No list of the program's table, with its NULL terminator, overflows the
      scratch array it is written to. */
  lemma GensFitScratch()
    ensures FitsScratch(Gens)
  {
    forall t | true
      ensures FirstFitsTemp(Gens, t) && FollowFitsArray(Gens, t)
    {
      FirstFits(t);
      FollowFits(t);
    }
    forall i | 0 <= i < |Gens|
      ensures RhsFitsFirst(Gens, i)
    {
      FirstSeqFits(i);
    }
  }
}
