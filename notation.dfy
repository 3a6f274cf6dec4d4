/**
 * The eighteen move tokens that `executeMove` recognises (and `getRandomMove`
 * draws from), and what each does to the sticker state.
 */
module Notation {
  import opened Wrappers
  import opened Stickers

  /** A base move, its prime (three base moves) or its double (two base moves). */
  datatype Amount = Quarter | Prime | Double

  datatype Move = Move(face: Face, amount: Amount)

  function Letter(f: Face): char
  {
    match f
    case Up => 'U'
    case Right => 'R'
    case Front => 'F'
    case Down => 'D'
    case Left => 'L'
    case Back => 'B'
  }

  function FaceOfLetter(c: char): (r: Option<Face>)
    ensures r.Some? ==> Letter(r.value) == c
    ensures r.None? ==> c !in "URFDLB"
  {
    if c == 'U' then Some(Up)
    else if c == 'R' then Some(Right)
    else if c == 'F' then Some(Front)
    else if c == 'D' then Some(Down)
    else if c == 'L' then Some(Left)
    else if c == 'B' then Some(Back)
    else None
  }

  function Suffix(a: Amount): string
  {
    match a
    case Quarter => ""
    case Prime => "'"
    case Double => "2"
  }

  /** The key of the move in the `moveMap` of `executeMove`. */
  function Token(m: Move): string
  {
    [Letter(m.face)] + Suffix(m.amount)
  }

  /** The move a string names, or `None` when it is not one of the eighteen keys. */
  function Parse(t: string): (r: Option<Move>)
    ensures r.Some? ==> Token(r.value) == t
  {
    if |t| == 0 || |t| > 2 then None
    else
      match FaceOfLetter(t[0])
      case None => None
      case Some(f) =>
        if |t| == 1 then Some(Move(f, Quarter))
        else if t[1] == '\'' then Some(Move(f, Prime))
        else if t[1] == '2' then Some(Move(f, Double))
        else None
  }

  /** Every move's token is recognised as that move. */
  lemma ParseToken(m: Move)
    ensures Parse(Token(m)) == Some(m)
  {
    var t := Token(m);
    assert t[0] == Letter(m.face);
    match m.amount
    case Quarter =>
    case Prime => assert t[1] == '\'';
    case Double => assert t[1] == '2';
  }

  /** How many base moves the token performs: `X2` calls `X` twice, `X_prime` three times. */
  function Repetitions(a: Amount): nat
  {
    match a
    case Quarter => 1
    case Prime => 3
    case Double => 2
  }

  function Apply(m: Move, s: State): State
  {
    TurnN(m.face, Repetitions(m.amount), s)
  }

  lemma ExecuteToken(m: Move, s: State)
    ensures Execute(Token(m), s) == TurnN(m.face, Repetitions(m.amount), s)
  {
    ParseToken(m);
  }

  /** `executeMove(t)`: a recognised token performs its move, any other string changes nothing. */
  function Execute(t: string, s: State): (r: State)
    ensures Parse(t).None? ==> r == s
  {
    match Parse(t)
    case None => s
    case Some(m) => Apply(m, s)
  }

  /** The tokens of `q` executed one after another, first token first. */
  function ExecuteAll(q: seq<string>, s: State): State
  {
    if q == [] then s else ExecuteAll(q[1..], Execute(q[0], s))
  }

  /** The move list of `getRandomMove`, in its order. */
  const Tokens: seq<string> :=
    ["U", "U'", "U2", "R", "R'", "R2", "F", "F'", "F2",
     "D", "D'", "D2", "L", "L'", "L2", "B", "B'", "B2"]

  /** Every move's token is in the list. */
  lemma TokenListed(m: Move)
    ensures Token(m) in Tokens
  {
    match m
    case Move(Up, Quarter) => assert Token(m) == Tokens[0];
    case Move(Up, Prime) => assert Token(m) == Tokens[1];
    case Move(Up, Double) => assert Token(m) == Tokens[2];
    case Move(Right, Quarter) => assert Token(m) == Tokens[3];
    case Move(Right, Prime) => assert Token(m) == Tokens[4];
    case Move(Right, Double) => assert Token(m) == Tokens[5];
    case Move(Front, Quarter) => assert Token(m) == Tokens[6];
    case Move(Front, Prime) => assert Token(m) == Tokens[7];
    case Move(Front, Double) => assert Token(m) == Tokens[8];
    case Move(Down, Quarter) => assert Token(m) == Tokens[9];
    case Move(Down, Prime) => assert Token(m) == Tokens[10];
    case Move(Down, Double) => assert Token(m) == Tokens[11];
    case Move(Left, Quarter) => assert Token(m) == Tokens[12];
    case Move(Left, Prime) => assert Token(m) == Tokens[13];
    case Move(Left, Double) => assert Token(m) == Tokens[14];
    case Move(Back, Quarter) => assert Token(m) == Tokens[15];
    case Move(Back, Prime) => assert Token(m) == Tokens[16];
    case Move(Back, Double) => assert Token(m) == Tokens[17];
  }

  /** The list holds exactly the strings `executeMove` recognises. */
  lemma TokensAreTheMoves(t: string)
    ensures t in Tokens <==> Parse(t).Some?
  {
    if Parse(t).Some? {
      TokenListed(Parse(t).value);
    }
  }

  /**
   * `getRandomMove` with the random draw as a parameter: `pick` stands for
   * `Math.floor(Math.random() * moves.length)`, which lies in `0 .. 17`.
   */
  function RandomMove(pick: nat): (t: string)
    requires pick < |Tokens|
    ensures Parse(t).Some? && t in Tokens
  {
    TokensAreTheMoves(Tokens[pick]);
    Tokens[pick]
  }

  // ---------------------------------------------------------------------------
  // Properties of the tokens

  /** `X2` is the base move twice; `X'` is the base move three times. */
  lemma DoubleAndPrime(f: Face, s: State)
    ensures Execute(Token(Move(f, Double)), s) == Execute(Token(Move(f, Quarter)), Execute(Token(Move(f, Quarter)), s))
    ensures Execute(Token(Move(f, Prime)), s) ==
      Execute(Token(Move(f, Quarter)), Execute(Token(Move(f, Quarter)), Execute(Token(Move(f, Quarter)), s)))
  {
    ParseToken(Move(f, Double));
    ParseToken(Move(f, Prime));
    ParseToken(Move(f, Quarter));
    var s1 := Turn(f, s);
    var s2 := Turn(f, s1);
    assert TurnN(f, 1, s) == s1 && TurnN(f, 1, s1) == s2 && TurnN(f, 1, s2) == Turn(f, s2);
    assert TurnN(f, 2, s) == s2;
    assert TurnN(f, 3, s) == Turn(f, s2);
  }

  /** For U, R, F, D and L the prime token undoes the base token, in either order. */
  lemma PrimeUndoesQuarter(f: Face, s: State)
    requires f != Back
    ensures Execute(Token(Move(f, Prime)), Execute(Token(Move(f, Quarter)), s)) == s
    ensures Execute(Token(Move(f, Quarter)), Execute(Token(Move(f, Prime)), s)) == s
  {
    ExecuteToken(Move(f, Quarter), s);
    ExecuteToken(Move(f, Prime), s);
    ExecuteToken(Move(f, Prime), Turn(f, s));
    ExecuteToken(Move(f, Quarter), TurnN(f, 3, s));
    TurnNOne(f, s);
    TurnNOne(f, TurnN(f, 3, s));
    QuarterOrderFour(f, s);
  }

  /** The keys of the moves below, as strings. */
  lemma Spellings()
    ensures Token(Move(Up, Quarter)) == "U"
    ensures Token(Move(Back, Quarter)) == "B" && Token(Move(Back, Prime)) == "B'"
  {
  }

  /** `B` followed by `B'` does not give back a state whose stickers are all distinct. */
  lemma BackPrimeFails()
    ensures Execute("B'", Execute("B", Numbered())) != Numbered()
  {
    var s := Numbered();
    Spellings();
    ExecuteToken(Move(Back, Quarter), s);
    TurnNOne(Back, s);
    ExecuteToken(Move(Back, Prime), Turn(Back, s));
    BackPrimeDoesNotUndoBack();
  }

  /** After `reset` and `U`, executing `B` then `B'` does not give back the state `U` left. */
  lemma BackPrimeFailsAfterUp()
    ensures Execute("B'", Execute("B", Execute("U", Solved()))) != Execute("U", Solved())
  {
    var s := Solved();
    var u := Turn(Up, s);
    Spellings();
    ExecuteToken(Move(Up, Quarter), s);
    TurnNOne(Up, s);
    ExecuteToken(Move(Back, Quarter), u);
    TurnNOne(Back, u);
    ExecuteToken(Move(Back, Prime), Turn(Back, u));
    BackPrimeAfterUpFails();
  }

  /** Every token keeps the sticker values and their multiplicities. */
  lemma ExecuteKeepsMultiset(t: string, s: State)
    ensures multiset(Execute(t, s)) == multiset(s)
  {
    if Parse(t).Some? {
      var f := Parse(t).value.face;
      var s1 := Turn(f, s);
      var s2 := Turn(f, s1);
      TurnNOne(f, s);
      TurnNUnfold(f, s);
      TurnKeepsMultiset(f, s);
      TurnKeepsMultiset(f, s1);
      TurnKeepsMultiset(f, s2);
    }
  }

  lemma {:induction false} ExecuteAllKeepsMultiset(q: seq<string>, s: State)
    ensures multiset(ExecuteAll(q, s)) == multiset(s)
  {
    if q != [] {
      ExecuteKeepsMultiset(q[0], s);
      ExecuteAllKeepsMultiset(q[1..], Execute(q[0], s));
    }
  }

  /** Whatever tokens follow `reset`, each of the six colours occurs exactly nine times. */
  lemma ColoursAfterReset(q: seq<string>, c: Byte)
    ensures multiset(ExecuteAll(q, Solved()))[c] == if c < 6 then 9 else 0
  {
    ExecuteAllKeepsMultiset(q, Solved());
    SolvedCount(c);
  }

  lemma {:induction false} TurnNKeepsCentres(f: Face, n: nat, s: State, c: nat)
    requires c < FaceCount
    ensures TurnN(f, n, s)[9 * c + 4] == s[9 * c + 4]
  {
    if n > 0 {
      TurnNKeepsCentres(f, n - 1, s, c);
      CentresFixed(f, c);
    }
  }

  /** No sequence of tokens changes a centre sticker. */
  lemma {:induction false} ExecuteAllKeepsCentres(q: seq<string>, s: State, c: nat)
    requires c < FaceCount
    ensures ExecuteAll(q, s)[9 * c + 4] == s[9 * c + 4]
  {
    if q != [] {
      if Parse(q[0]).Some? {
        var m := Parse(q[0]).value;
        TurnNKeepsCentres(m.face, Repetitions(m.amount), s, c);
      }
      ExecuteAllKeepsCentres(q[1..], Execute(q[0], s), c);
    }
  }

  /** Two stickers of one face that differ after `n` moves `f` from the solved state. */
  lemma Unsolved(f: Face, n: nat, i: nat, k: nat)
    requires i < FaceCount && k < 9
    requires SrcN(f, n, 9 * i + k) / 9 != SrcN(f, n, 9 * i) / 9
    ensures !IsSolvedState(TurnN(f, n, Solved()))
  {
    var s := TurnN(f, n, Solved());
    TurnNAt(f, n, Solved(), 9 * i + k);
    TurnNAt(f, n, Solved(), 9 * i);
    assert FaceStickers(s, i)[k] != FaceStickers(s, i)[0];
  }

  /** The three tokens of face `f`, executed after `reset`, leave the cube unsolved. */
  lemma FaceMovesUnsolve(f: Face, a: Amount, i: nat, k: nat)
    requires i < FaceCount && k < 9
    requires SrcN(f, 1, 9 * i + k) / 9 != SrcN(f, 1, 9 * i) / 9
    requires SrcN(f, 2, 9 * i + k) / 9 != SrcN(f, 2, 9 * i) / 9
    requires SrcN(f, 3, 9 * i + k) / 9 != SrcN(f, 3, 9 * i) / 9
    ensures !IsSolvedState(Execute(Token(Move(f, a)), Solved()))
  {
    ExecuteToken(Move(f, a), Solved());
    Unsolved(f, Repetitions(a), i, k);
  }

  lemma UpMovesUnsolve(a: Amount)
    ensures !IsSolvedState(Execute(Token(Move(Up, a)), Solved()))
  {
    UpWitness();
    FaceMovesUnsolve(Up, a, 1, 3);
  }

  /** Positions 12 and 9 of face 1 receive stickers of different faces after one, two and three moves. */
  lemma UpWitness()
    ensures SrcN(Up, 1, 12) / 9 != SrcN(Up, 1, 9) / 9
    ensures SrcN(Up, 2, 12) / 9 != SrcN(Up, 2, 9) / 9
    ensures SrcN(Up, 3, 12) / 9 != SrcN(Up, 3, 9) / 9
  {
    assert Src(Up, 12) == 12;
    SrcUnfold(Up, 12);
    assert Src(Up, 9) == 53 && Src(Up, 53) == 36 && Src(Up, 36) == 18;
    SrcUnfold(Up, 9);
  }

  lemma RightMovesUnsolve(a: Amount)
    ensures !IsSolvedState(Execute(Token(Move(Right, a)), Solved()))
  {
    RightWitness();
    FaceMovesUnsolve(Right, a, 0, 2);
  }

  /** Positions 2 and 0 of face 0 receive stickers of different faces after one, two and three moves. */
  lemma RightWitness()
    ensures SrcN(Right, 1, 2) / 9 != SrcN(Right, 1, 0) / 9
    ensures SrcN(Right, 2, 2) / 9 != SrcN(Right, 2, 0) / 9
    ensures SrcN(Right, 3, 2) / 9 != SrcN(Right, 3, 0) / 9
  {
    assert Src(Right, 2) == 20 && Src(Right, 20) == 29 && Src(Right, 29) == 51;
    SrcUnfold(Right, 2);
    assert Src(Right, 0) == 0;
    SrcUnfold(Right, 0);
  }

  lemma FrontMovesUnsolve(a: Amount)
    ensures !IsSolvedState(Execute(Token(Move(Front, a)), Solved()))
  {
    FrontWitness();
    FaceMovesUnsolve(Front, a, 0, 6);
  }

  /** Positions 6 and 0 of face 0 receive stickers of different faces after one, two and three moves. */
  lemma FrontWitness()
    ensures SrcN(Front, 1, 6) / 9 != SrcN(Front, 1, 0) / 9
    ensures SrcN(Front, 2, 6) / 9 != SrcN(Front, 2, 0) / 9
    ensures SrcN(Front, 3, 6) / 9 != SrcN(Front, 3, 0) / 9
  {
    assert Src(Front, 6) == 44 && Src(Front, 44) == 27 && Src(Front, 27) == 9;
    SrcUnfold(Front, 6);
    assert Src(Front, 0) == 0;
    SrcUnfold(Front, 0);
  }

  lemma DownMovesUnsolve(a: Amount)
    ensures !IsSolvedState(Execute(Token(Move(Down, a)), Solved()))
  {
    DownWitness();
    FaceMovesUnsolve(Down, a, 1, 6);
  }

  /** Positions 15 and 9 of face 1 receive stickers of different faces after one, two and three moves. */
  lemma DownWitness()
    ensures SrcN(Down, 1, 15) / 9 != SrcN(Down, 1, 9) / 9
    ensures SrcN(Down, 2, 15) / 9 != SrcN(Down, 2, 9) / 9
    ensures SrcN(Down, 3, 15) / 9 != SrcN(Down, 3, 9) / 9
  {
    assert Src(Down, 15) == 24 && Src(Down, 24) == 42 && Src(Down, 42) == 47;
    SrcUnfold(Down, 15);
    assert Src(Down, 9) == 9;
    SrcUnfold(Down, 9);
  }

  lemma LeftMovesUnsolve(a: Amount)
    ensures !IsSolvedState(Execute(Token(Move(Left, a)), Solved()))
  {
    LeftWitness();
    FaceMovesUnsolve(Left, a, 0, 1);
  }

  /** Positions 1 and 0 of face 0 receive stickers of different faces after one, two and three moves. */
  lemma LeftWitness()
    ensures SrcN(Left, 1, 1) / 9 != SrcN(Left, 1, 0) / 9
    ensures SrcN(Left, 2, 1) / 9 != SrcN(Left, 2, 0) / 9
    ensures SrcN(Left, 3, 1) / 9 != SrcN(Left, 3, 0) / 9
  {
    assert Src(Left, 1) == 1;
    SrcUnfold(Left, 1);
    assert Src(Left, 0) == 53 && Src(Left, 53) == 27 && Src(Left, 27) == 18;
    SrcUnfold(Left, 0);
  }

  lemma BackMovesUnsolve(a: Amount)
    ensures !IsSolvedState(Execute(Token(Move(Back, a)), Solved()))
  {
    BackWitness();
    FaceMovesUnsolve(Back, a, 0, 3);
  }

  /** Positions 3 and 0 of face 0 receive stickers of different faces after one, two and three moves. */
  lemma BackWitness()
    ensures SrcN(Back, 1, 3) / 9 != SrcN(Back, 1, 0) / 9
    ensures SrcN(Back, 2, 3) / 9 != SrcN(Back, 2, 0) / 9
    ensures SrcN(Back, 3, 3) / 9 != SrcN(Back, 3, 0) / 9
  {
    assert Src(Back, 3) == 3;
    SrcUnfold(Back, 3);
    assert Src(Back, 0) == 11 && Src(Back, 11) == 35 && Src(Back, 35) == 36;
    SrcUnfold(Back, 0);
  }

  /** Any one of the eighteen tokens, executed after `reset`, leaves the cube unsolved. */
  lemma MoveUnsolves(m: Move)
    ensures !IsSolvedState(Execute(Token(m), Solved()))
  {
    match m.face
    case Up => UpMovesUnsolve(m.amount);
    case Right => RightMovesUnsolve(m.amount);
    case Front => FrontMovesUnsolve(m.amount);
    case Down => DownMovesUnsolve(m.amount);
    case Left => LeftMovesUnsolve(m.amount);
    case Back => BackMovesUnsolve(m.amount);
  }
}
