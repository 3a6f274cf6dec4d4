/**
 * The sticker state of the puzzle kept by `RubiksCube`, as values.
 *
 * The state is 54 bytes: six faces of nine stickers in the order U, R, F, D,
 * L, B, face `i` at positions `9*i .. 9*i+8` and its centre at `9*i+4`.
 * Every face move of the class is a fixed rearrangement of positions, given
 * here as a table of SOURCE positions: after the move, position `p` holds
 * the sticker that was at `Src(f, p)`.
 */
module Stickers {
  import Permutations

  /** One entry of the `Uint8Array` holding the stickers. */
  newtype Byte = x: int | 0 <= x < 256

  const StickerCount: nat := 54
  const FaceCount: nat := 6

  type State = s: seq<Byte> | |s| == StickerCount witness Permutations.Repeat(0, StickerCount)

  /** The six faces, in the order in which the state stores them. */
  datatype Face = Up | Right | Front | Down | Left | Back

  function Index(f: Face): (i: nat)
    ensures i < FaceCount
  {
    match f
    case Up => 0
    case Right => 1
    case Front => 2
    case Down => 3
    case Left => 4
    case Back => 5
  }

  function FaceAt(i: nat): (f: Face)
    requires i < FaceCount
    ensures Index(f) == i
  {
    if i == 0 then Up
    else if i == 1 then Right
    else if i == 2 then Front
    else if i == 3 then Down
    else if i == 4 then Left
    else Back
  }

  function Opposite(f: Face): (g: Face)
    ensures g != f
  {
    match f
    case Up => Down
    case Down => Up
    case Right => Left
    case Left => Right
    case Front => Back
    case Back => Front
  }

  /** The nine stickers of face `i` (`getFace`). */
  function FaceStickers(s: State, i: nat): (r: seq<Byte>)
    requires i < FaceCount
    ensures |r| == 9 && forall k :: 0 <= k < 9 ==> r[k] == s[9 * i + k]
  {
    s[9 * i .. 9 * i + 9]
  }

  // ---------------------------------------------------------------------------
  // rotateFace

  /** Inside one face, a quarter turn clockwise takes sticker `k` from `FaceTurnSrc(k)`. */
  function FaceTurnSrc(k: nat): (j: nat)
    requires k < 9
    ensures j < 9
  {
    if k == 0 then 6 else if k == 1 then 3 else if k == 2 then 0
    else if k == 3 then 7 else if k == 4 then 4 else if k == 5 then 1
    else if k == 6 then 8 else if k == 7 then 5 else 2
  }

  /** `rotateFace(i)`: the nine stickers of face `i` turn, every other position keeps its sticker. */
  function RotateFaceSrc(i: nat, p: nat): (q: nat)
    requires i < FaceCount && p < StickerCount
    ensures q < StickerCount
  {
    if 9 * i <= p < 9 * i + 9 then 9 * i + FaceTurnSrc(p - 9 * i) else p
  }

  function RotatedFace(i: nat, s: State): State
    requires i < FaceCount
  {
    seq(StickerCount, p requires 0 <= p < StickerCount => s[RotateFaceSrc(i, p)])
  }

  /** The nine assignments of `rotateFace`, each reading the copy of the face taken before them. */
  lemma RotatedFaceByAssignments(i: nat, s: State)
    requires i < FaceCount
    ensures RotatedFace(i, s) ==
      s[9 * i := s[9 * i + 6]][9 * i + 1 := s[9 * i + 3]][9 * i + 2 := s[9 * i]]
       [9 * i + 3 := s[9 * i + 7]][9 * i + 4 := s[9 * i + 4]][9 * i + 5 := s[9 * i + 1]]
       [9 * i + 6 := s[9 * i + 8]][9 * i + 7 := s[9 * i + 5]][9 * i + 8 := s[9 * i + 2]]
  {
  }

  /** `rotateFace` writes only the nine positions of its face, and never its centre. */
  lemma RotateFaceFrame(i: nat, s: State, p: nat)
    requires i < FaceCount && p < StickerCount
    ensures RotatedFace(i, s)[p] != s[p] ==> 9 * i <= p < 9 * i + 9 && p != 9 * i + 4
  {
  }

  /** Four applications of `rotateFace` restore every state. */
  lemma RotateFaceOrderFour(i: nat, s: State)
    requires i < FaceCount
    ensures RotatedFace(i, RotatedFace(i, RotatedFace(i, RotatedFace(i, s)))) == s
  {
    var s1 := RotatedFace(i, s);
    var s2 := RotatedFace(i, s1);
    var s3 := RotatedFace(i, s2);
    var s4 := RotatedFace(i, s3);
    forall p | 0 <= p < StickerCount ensures s4[p] == s[p] {
      var p1 := RotateFaceSrc(i, p);
      var p2 := RotateFaceSrc(i, p1);
      var p3 := RotateFaceSrc(i, p2);
      var p4 := RotateFaceSrc(i, p3);
      assert s4[p] == s[p4];
      if 9 * i <= p < 9 * i + 9 {
        var k := p - 9 * i;
        assert p4 == 9 * i + FaceTurnSrc(FaceTurnSrc(FaceTurnSrc(FaceTurnSrc(k))));
      }
    }
  }

  // ---------------------------------------------------------------------------
  // The twelve side stickers of each move, exactly as the assignments of U() .. B() move them

  function SideSrc(f: Face, p: nat): nat
  {
    match f
    case Up =>
      if p == 18 then 9 else if p == 19 then 10 else if p == 20 then 11
      else if p == 9 then 53 else if p == 10 then 52 else if p == 11 then 51
      else if p == 53 then 36 else if p == 52 then 37 else if p == 51 then 38
      else if p == 36 then 18 else if p == 37 then 19 else if p == 38 then 20
      else p
    case Right =>
      if p == 20 then 29 else if p == 23 then 32 else if p == 26 then 35
      else if p == 29 then 51 else if p == 32 then 48 else if p == 35 then 45
      else if p == 51 then 2 else if p == 48 then 5 else if p == 45 then 8
      else if p == 2 then 20 else if p == 5 then 23 else if p == 8 then 26
      else p
    case Front =>
      if p == 6 then 44 else if p == 7 then 41 else if p == 8 then 38
      else if p == 44 then 27 else if p == 41 then 28 else if p == 38 then 29
      else if p == 27 then 9 else if p == 28 then 12 else if p == 29 then 15
      else if p == 9 then 6 else if p == 12 then 7 else if p == 15 then 8
      else p
    case Down =>
      if p == 24 then 42 else if p == 25 then 43 else if p == 26 then 44
      else if p == 42 then 47 else if p == 43 then 46 else if p == 44 then 45
      else if p == 47 then 15 else if p == 46 then 16 else if p == 45 then 17
      else if p == 15 then 24 else if p == 16 then 25 else if p == 17 then 26
      else p
    case Left =>
      if p == 18 then 0 else if p == 21 then 3 else if p == 24 then 6
      else if p == 0 then 53 else if p == 3 then 50 else if p == 6 then 47
      else if p == 53 then 27 else if p == 50 then 30 else if p == 47 then 33
      else if p == 27 then 18 else if p == 30 then 21 else if p == 33 then 24
      else p
    case Back =>
      // As written: reading `a→b` as "a receives the sticker at b", these twelve
      // form the 8-cycle 0→11→35→36→2→17→33→42 and the 4-cycle 1→14→34→39.
      if p == 0 then 11 else if p == 1 then 14 else if p == 2 then 17
      else if p == 11 then 35 else if p == 14 then 34 else if p == 17 then 33
      else if p == 35 then 36 else if p == 34 then 39 else if p == 33 then 42
      else if p == 36 then 2 else if p == 39 then 1 else if p == 42 then 0
      else p
  }

  /** The twelve side positions each move writes. */
  function SideTargets(f: Face): set<nat>
  {
    match f
    case Up => {18, 19, 20, 9, 10, 11, 53, 52, 51, 36, 37, 38}
    case Right => {20, 23, 26, 29, 32, 35, 51, 48, 45, 2, 5, 8}
    case Front => {6, 7, 8, 44, 41, 38, 27, 28, 29, 9, 12, 15}
    case Down => {24, 25, 26, 42, 43, 44, 47, 46, 45, 15, 16, 17}
    case Left => {18, 21, 24, 0, 3, 6, 53, 50, 47, 27, 30, 33}
    case Back => {0, 1, 2, 11, 14, 17, 35, 34, 33, 36, 39, 42}
  }

  /** The positions a move writes: its own face and its twelve side positions. */
  predicate Touched(f: Face, p: nat)
  {
    OnFace(f, p) || p in SideTargets(f)
  }

  /** The nine positions of the turning face itself. */
  predicate OnFace(f: Face, p: nat)
  {
    9 * Index(f) <= p < 9 * Index(f) + 9
  }

  /** Face move `f`: position `p` takes the sticker from `Src(f, p)`. */
  function Src(f: Face, p: nat): (q: nat)
    requires p < StickerCount
    ensures q < StickerCount
  {
    if OnFace(f, p) then RotateFaceSrc(Index(f), p) else SideSrc(f, p)
  }

  /**
   * The twelve side assignments of a face move, read as one simultaneous update
   * of `t`: every value is read (directly or through `temp`) before its
   * position is overwritten, so each new value is the one `t` held.
   */
  function SideMoves(f: Face, t: State): State
  {
    match f
    case Up =>
      t[18 := t[9]][19 := t[10]][20 := t[11]]
       [9 := t[53]][10 := t[52]][11 := t[51]]
       [53 := t[36]][52 := t[37]][51 := t[38]]
       [36 := t[18]][37 := t[19]][38 := t[20]]
    case Right =>
      t[20 := t[29]][23 := t[32]][26 := t[35]]
       [29 := t[51]][32 := t[48]][35 := t[45]]
       [51 := t[2]][48 := t[5]][45 := t[8]]
       [2 := t[20]][5 := t[23]][8 := t[26]]
    case Front =>
      t[6 := t[44]][7 := t[41]][8 := t[38]]
       [44 := t[27]][41 := t[28]][38 := t[29]]
       [27 := t[9]][28 := t[12]][29 := t[15]]
       [9 := t[6]][12 := t[7]][15 := t[8]]
    case Down =>
      t[24 := t[42]][25 := t[43]][26 := t[44]]
       [42 := t[47]][43 := t[46]][44 := t[45]]
       [47 := t[15]][46 := t[16]][45 := t[17]]
       [15 := t[24]][16 := t[25]][17 := t[26]]
    case Left =>
      t[18 := t[0]][21 := t[3]][24 := t[6]]
       [0 := t[53]][3 := t[50]][6 := t[47]]
       [53 := t[27]][50 := t[30]][47 := t[33]]
       [27 := t[18]][30 := t[21]][33 := t[24]]
    case Back =>
      t[0 := t[11]][1 := t[14]][2 := t[17]]
       [11 := t[35]][14 := t[34]][17 := t[33]]
       [35 := t[36]][34 := t[39]][33 := t[42]]
       [36 := t[2]][39 := t[1]][42 := t[0]]
  }

  /**
   * A face move as the methods perform it, `rotateFace` followed by the side
   * assignments, is the move the table `Src` describes.
   */
  lemma TurnIsRotationThenSides(f: Face, s: State)
    ensures SideMoves(f, RotatedFace(Index(f), s)) == Turn(f, s)
  {
    match f
    case Up => UpIsRotationThenSides(s);
    case Right => RightIsRotationThenSides(s);
    case Front => FrontIsRotationThenSides(s);
    case Down => DownIsRotationThenSides(s);
    case Left => LeftIsRotationThenSides(s);
    case Back => BackIsRotationThenSides(s);
  }

  lemma UpIsRotationThenSides(s: State)
    ensures SideMoves(Up, RotatedFace(0, s)) == Turn(Up, s)
  {
    var r := RotatedFace(0, s);
    forall p | 0 <= p < StickerCount ensures SideMoves(Up, r)[p] == s[Src(Up, p)] {
    }
  }

  lemma RightIsRotationThenSides(s: State)
    ensures SideMoves(Right, RotatedFace(1, s)) == Turn(Right, s)
  {
    var r := RotatedFace(1, s);
    forall p | 0 <= p < StickerCount ensures SideMoves(Right, r)[p] == s[Src(Right, p)] {
    }
  }

  lemma FrontIsRotationThenSides(s: State)
    ensures SideMoves(Front, RotatedFace(2, s)) == Turn(Front, s)
  {
    var r := RotatedFace(2, s);
    forall p | 0 <= p < StickerCount ensures SideMoves(Front, r)[p] == s[Src(Front, p)] {
    }
  }

  lemma DownIsRotationThenSides(s: State)
    ensures SideMoves(Down, RotatedFace(3, s)) == Turn(Down, s)
  {
    var r := RotatedFace(3, s);
    forall p | 0 <= p < StickerCount ensures SideMoves(Down, r)[p] == s[Src(Down, p)] {
    }
  }

  lemma LeftIsRotationThenSides(s: State)
    ensures SideMoves(Left, RotatedFace(4, s)) == Turn(Left, s)
  {
    var r := RotatedFace(4, s);
    forall p | 0 <= p < StickerCount ensures SideMoves(Left, r)[p] == s[Src(Left, p)] {
    }
  }

  lemma BackIsRotationThenSides(s: State)
    ensures SideMoves(Back, RotatedFace(5, s)) == Turn(Back, s)
  {
    var r := RotatedFace(5, s);
    forall p | 0 <= p < StickerCount ensures SideMoves(Back, r)[p] == s[Src(Back, p)] {
    }
  }

  /** The side tables never read or write a sticker of the turning face. */
  lemma SidesOffFace(f: Face, p: nat)
    requires p < StickerCount
    ensures OnFace(f, p) ==> SideSrc(f, p) == p
    ensures !OnFace(f, p) ==> !OnFace(f, SideSrc(f, p))
  {
  }

  /** On the face block the table is the quarter turn, and it stays on the block. */
  lemma SrcOnFace(f: Face, p: nat)
    requires p < StickerCount && OnFace(f, p)
    ensures Src(f, p) == RotateFaceSrc(Index(f), p) && OnFace(f, Src(f, p))
  {
  }

  /** Off the face block the table is the side table, and it stays off the block. */
  lemma SrcOffFace(f: Face, p: nat)
    requires p < StickerCount && !OnFace(f, p)
    ensures Src(f, p) == SideSrc(f, p) && !OnFace(f, Src(f, p))
  {
    SidesOffFace(f, p);
  }

  /** The side table moves exactly the twelve side positions. */
  lemma SideTargetsMoved(f: Face, p: nat)
    ensures SideSrc(f, p) != p <==> p in SideTargets(f)
  {
  }

  /** No side table touches a centre. */
  lemma SidesMissCentres(f: Face, c: nat)
    requires c < FaceCount
    ensures SideSrc(f, 9 * c + 4) == 9 * c + 4
  {
  }

  /** The quarter turn moves every sticker of the face except its centre. */
  lemma RotationMovesAllButCentre(f: Face, p: nat)
    requires p < StickerCount && OnFace(f, p)
    ensures RotateFaceSrc(Index(f), p) != p <==> p != 9 * Index(f) + 4
  {
  }

  /** `n` successive applications of the table. */
  function SrcN(f: Face, n: nat, p: nat): (q: nat)
    requires p < StickerCount
    ensures q < StickerCount
  {
    if n == 0 then p else SrcN(f, n - 1, Src(f, p))
  }

  /** The state after face move `f` (the methods `U()` .. `B()`). */
  function Turn(f: Face, s: State): State
  {
    seq(StickerCount, p requires 0 <= p < StickerCount => s[Src(f, p)])
  }

  /** The state after `n` successive face moves `f`. */
  function TurnN(f: Face, n: nat, s: State): State
  {
    if n == 0 then s else Turn(f, TurnN(f, n - 1, s))
  }

  // ---------------------------------------------------------------------------
  // The solved colouring and the solved test

  /** The state `reset` builds: every sticker of face `i` has value `i`. */
  function Solved(): State
  {
    seq(StickerCount, p requires 0 <= p < StickerCount => (p / 9) as Byte)
  }

  ghost predicate Uniform(face: seq<Byte>)
  {
    forall k :: 0 <= k < |face| ==> face[k] == face[0]
  }

  /** `isSolved`: on each face all nine stickers equal that face's first sticker. */
  ghost predicate IsSolvedState(s: State)
  {
    forall i :: 0 <= i < FaceCount ==> Uniform(FaceStickers(s, i))
  }

  // ---------------------------------------------------------------------------
  // What a face move changes

  /** No face move changes any of the six centre stickers 4, 13, 22, 31, 40, 49. */
  lemma CentresFixed(f: Face, c: nat)
    requires c < FaceCount
    ensures Src(f, 9 * c + 4) == 9 * c + 4
  {
    SidesMissCentres(f, c);
    if OnFace(f, 9 * c + 4) {
      RotationMovesAllButCentre(f, 9 * c + 4);
    }
  }

  /**
   * A face move writes only its own face and its twelve side positions, and
   * every one of those except its own centre really receives another sticker.
   */
  lemma MoveFrame(f: Face, p: nat)
    requires p < StickerCount
    ensures Src(f, p) != p <==> Touched(f, p) && p != 9 * Index(f) + 4
  {
    SidesOffFace(f, p);
    SideTargetsMoved(f, p);
    if OnFace(f, p) {
      RotationMovesAllButCentre(f, p);
    }
  }

  /** A position the move does not touch keeps its sticker. */
  lemma TurnKeepsUntouched(f: Face, s: State, p: nat)
    requires p < StickerCount && !Touched(f, p)
    ensures Turn(f, s)[p] == s[p]
  {
    MoveFrame(f, p);
  }

  // ---------------------------------------------------------------------------
  // Repeated moves

  lemma TurnNOne(f: Face, s: State)
    ensures TurnN(f, 1, s) == Turn(f, s)
  {
  }

  /** Two and three moves, written out. */
  lemma TurnNUnfold(f: Face, s: State)
    ensures TurnN(f, 2, s) == Turn(f, Turn(f, s))
    ensures TurnN(f, 3, s) == Turn(f, Turn(f, Turn(f, s)))
  {
    assert TurnN(f, 1, s) == Turn(f, s);
    assert TurnN(f, 2, s) == Turn(f, TurnN(f, 1, s));
    assert TurnN(f, 3, s) == Turn(f, TurnN(f, 2, s));
  }

  lemma {:induction false} TurnNAt(f: Face, n: nat, s: State, p: nat)
    requires p < StickerCount
    ensures TurnN(f, n, s)[p] == s[SrcN(f, n, p)]
  {
    if n > 0 {
      TurnNAt(f, n - 1, s, Src(f, p));
      assert TurnN(f, n, s)[p] == TurnN(f, n - 1, s)[Src(f, p)];
      assert SrcN(f, n, p) == SrcN(f, n - 1, Src(f, p));
    }
  }

  lemma {:induction false} SrcNAdd(f: Face, m: nat, n: nat, p: nat)
    requires p < StickerCount
    ensures SrcN(f, m + n, p) == SrcN(f, n, SrcN(f, m, p))
  {
    if m > 0 {
      SrcNAdd(f, m - 1, n, Src(f, p));
    }
  }

  lemma SrcNSucc(f: Face, n: nat, p: nat)
    requires p < StickerCount
    ensures SrcN(f, n + 1, p) == Src(f, SrcN(f, n, p))
  {
    SrcNAdd(f, n, 1, p);
  }

  /** The number of applications after which a move gives back every state. */
  function Order(f: Face): nat
  {
    if f == Back then 8 else 4
  }

  /** `SrcN` for two, three and four applications, written out. */
  lemma SrcUnfold(f: Face, p: nat)
    requires p < StickerCount
    ensures SrcN(f, 2, p) == Src(f, Src(f, p))
    ensures SrcN(f, 3, p) == Src(f, Src(f, Src(f, p)))
    ensures SrcN(f, 4, p) == Src(f, Src(f, Src(f, Src(f, p))))
  {
    var p1 := Src(f, p);
    var p2 := Src(f, p1);
    var p3 := Src(f, p2);
    var p4 := Src(f, p3);
    assert SrcN(f, 1, p3) == p4;
    assert SrcN(f, 1, p2) == p3;
    assert SrcN(f, 1, p1) == p2;
    assert SrcN(f, 2, p2) == SrcN(f, 1, p3);
    assert SrcN(f, 2, p1) == SrcN(f, 1, p2);
    assert SrcN(f, 2, p) == SrcN(f, 1, p1);
    assert SrcN(f, 3, p1) == SrcN(f, 2, p2);
    assert SrcN(f, 3, p) == SrcN(f, 2, p1);
    assert SrcN(f, 4, p) == SrcN(f, 3, p1);
  }

  /** Four quarter turns of `rotateFace` put every sticker of the face back. */
  lemma RotationCycles(i: nat, p: nat)
    requires i < FaceCount && p < StickerCount
    ensures RotateFaceSrc(i, RotateFaceSrc(i, RotateFaceSrc(i, RotateFaceSrc(i, p)))) == p
  {
    if 9 * i <= p < 9 * i + 9 {
      var k := p - 9 * i;
      assert FaceTurnSrc(FaceTurnSrc(FaceTurnSrc(FaceTurnSrc(k)))) == k;
    }
  }

  /**
   * Four applications of the table of `f`: the identity on the face block,
   * four applications of the side table elsewhere.
   */
  lemma FourApplications(f: Face, p: nat)
    requires p < StickerCount
    ensures OnFace(f, p) ==> Src(f, Src(f, Src(f, Src(f, p)))) == p
    ensures !OnFace(f, p) ==>
      Src(f, Src(f, Src(f, Src(f, p)))) == SideSrc(f, SideSrc(f, SideSrc(f, SideSrc(f, p))))
  {
    var p1 := Src(f, p);
    var p2 := Src(f, p1);
    var p3 := Src(f, p2);
    if OnFace(f, p) {
      SrcOnFace(f, p); SrcOnFace(f, p1); SrcOnFace(f, p2); SrcOnFace(f, p3);
      RotationCycles(Index(f), p);
    } else {
      SrcOffFace(f, p); SrcOffFace(f, p1); SrcOffFace(f, p2); SrcOffFace(f, p3);
    }
  }

  /** The side stickers of U, R, F, D and L move in three 4-cycles. */
  lemma SideCycles(f: Face, p: nat)
    requires f != Back
    ensures SideSrc(f, SideSrc(f, SideSrc(f, SideSrc(f, p)))) == p
  {
    match f
    case Up => UpSideCycles(p);
    case Right => RightSideCycles(p);
    case Front => FrontSideCycles(p);
    case Down => DownSideCycles(p);
    case Left => LeftSideCycles(p);
  }

  lemma UpSideCycles(p: nat)
    ensures SideSrc(Up, SideSrc(Up, SideSrc(Up, SideSrc(Up, p)))) == p
  {
  }

  lemma RightSideCycles(p: nat)
    ensures SideSrc(Right, SideSrc(Right, SideSrc(Right, SideSrc(Right, p)))) == p
  {
  }

  lemma FrontSideCycles(p: nat)
    ensures SideSrc(Front, SideSrc(Front, SideSrc(Front, SideSrc(Front, p)))) == p
  {
  }

  lemma DownSideCycles(p: nat)
    ensures SideSrc(Down, SideSrc(Down, SideSrc(Down, SideSrc(Down, p)))) == p
  {
  }

  lemma LeftSideCycles(p: nat)
    ensures SideSrc(Left, SideSrc(Left, SideSrc(Left, SideSrc(Left, p)))) == p
  {
  }

  lemma BackSideFour(p: nat)
    ensures SideSrc(Back, SideSrc(Back, SideSrc(Back, SideSrc(Back, p)))) == BackFourthSrc(p)
  {
  }

  /** For U, R, F, D and L the stickers move in 4-cycles only. */
  lemma QuarterCycles(f: Face, p: nat)
    requires f != Back && p < StickerCount
    ensures SrcN(f, 4, p) == p
  {
    SrcUnfold(f, p);
    FourApplications(f, p);
    SideCycles(f, p);
  }

  /** Four B moves exchange exactly the pairs (0 2), (11 17), (33 35) and (36 42). */
  function BackFourthSrc(p: nat): nat
  {
    if p == 0 then 2 else if p == 2 then 0
    else if p == 11 then 17 else if p == 17 then 11
    else if p == 33 then 35 else if p == 35 then 33
    else if p == 36 then 42 else if p == 42 then 36
    else p
  }

  /**
   * B's side stickers form the 8-cycle 0, 11, 35, 36, 2, 17, 33, 42 and the
   * 4-cycle 1, 14, 34, 39, each position reading the next one, so four B
   * moves are not the identity.
   */
  lemma BackCycles(p: nat)
    requires p < StickerCount
    ensures Src(Back, 0) == 11 && Src(Back, 11) == 35 && Src(Back, 35) == 36 && Src(Back, 36) == 2
    ensures Src(Back, 2) == 17 && Src(Back, 17) == 33 && Src(Back, 33) == 42 && Src(Back, 42) == 0
    ensures Src(Back, 1) == 14 && Src(Back, 14) == 34 && Src(Back, 34) == 39 && Src(Back, 39) == 1
    ensures SrcN(Back, 4, p) == BackFourthSrc(p)
  {
    SrcUnfold(Back, p);
    BackFour(p);
  }

  lemma BackFour(p: nat)
    requires p < StickerCount
    ensures Src(Back, Src(Back, Src(Back, Src(Back, p)))) == BackFourthSrc(p)
  {
    FourApplications(Back, p);
    BackSideFour(p);
  }

  lemma OrderAt(f: Face, p: nat)
    requires p < StickerCount
    ensures SrcN(f, Order(f), p) == p
  {
    if f == Back {
      SrcNAdd(Back, 4, 4, p);
      BackCycles(p);
      BackCycles(SrcN(Back, 4, p));
    } else {
      QuarterCycles(f, p);
    }
  }

  /** `Order(f)` applications of any face move give back every state. */
  lemma TurnOrder(f: Face, s: State)
    ensures TurnN(f, Order(f), s) == s
  {
    forall p | 0 <= p < StickerCount ensures TurnN(f, Order(f), s)[p] == s[p] {
      TurnNAt(f, Order(f), s, p);
      OrderAt(f, p);
    }
  }

  /** For U, R, F, D and L four moves, or a move and three more, give back every state. */
  lemma QuarterOrderFour(f: Face, s: State)
    requires f != Back
    ensures TurnN(f, 4, s) == s
    ensures TurnN(f, 3, Turn(f, s)) == s && Turn(f, TurnN(f, 3, s)) == s
  {
    TurnOrder(f, s);
    assert Turn(f, TurnN(f, 3, s)) == TurnN(f, 4, s);
    forall p | 0 <= p < StickerCount ensures TurnN(f, 3, Turn(f, s))[p] == s[p] {
      ThreeAfterOne(f, s, p);
    }
  }

  lemma ThreeAfterOne(f: Face, s: State, p: nat)
    requires f != Back && p < StickerCount
    ensures TurnN(f, 3, Turn(f, s))[p] == s[p]
  {
    var q := SrcN(f, 3, p);
    TurnNAt(f, 3, Turn(f, s), p);
    assert Turn(f, s)[q] == s[Src(f, q)];
    SrcNAdd(f, 3, 1, p);
    SrcNOne(f, q);
    QuarterCycles(f, p);
  }

  /** Four B moves apply exactly the four exchanges of `BackFourthSrc`. */
  lemma BackFourthPower(s: State)
    ensures TurnN(Back, 4, s) ==
      s[0 := s[2]][2 := s[0]][11 := s[17]][17 := s[11]][33 := s[35]][35 := s[33]][36 := s[42]][42 := s[36]]
  {
    var t := s[0 := s[2]][2 := s[0]][11 := s[17]][17 := s[11]][33 := s[35]][35 := s[33]][36 := s[42]][42 := s[36]];
    forall p | 0 <= p < StickerCount ensures TurnN(Back, 4, s)[p] == t[p] {
      TurnNAt(Back, 4, s, p);
      BackCycles(p);
    }
  }

  /** The stickers that make four B moves visible all lie on faces of one colour each in the solved state. */
  lemma BackFourthKeepsSolved()
    ensures TurnN(Back, 4, Solved()) == Solved()
  {
    BackFourthPower(Solved());
  }

  /** The four pairs of `BackFourthPower` hold equal stickers. */
  ghost predicate BackPairsAgree(s: State)
  {
    s[0] == s[2] && s[11] == s[17] && s[33] == s[35] && s[36] == s[42]
  }

  /** Four B moves give back a state exactly when its four exchanged pairs agree. */
  lemma BackFourthIdentityExactly(s: State)
    ensures TurnN(Back, 4, s) == s <==> BackPairsAgree(s)
  {
    BackFourthPower(s);
    var t := s[0 := s[2]][2 := s[0]][11 := s[17]][17 := s[11]][33 := s[35]][35 := s[33]][36 := s[42]][42 := s[36]];
    if BackPairsAgree(s) {
      assert t == s;
    } else if s[0] != s[2] {
      assert t[0] != s[0];
    } else if s[11] != s[17] {
      assert t[11] != s[11];
    } else if s[33] != s[35] {
      assert t[33] != s[33];
    } else {
      assert t[36] != s[36];
    }
  }

  /** `B_prime` after `B` gives back a state exactly when its four exchanged pairs agree. */
  lemma BackPrimeUndoesBackExactly(s: State)
    ensures TurnN(Back, 3, Turn(Back, s)) == s <==> BackPairsAgree(s)
  {
    TurnNUnfold(Back, Turn(Back, s));
    TurnNUnfold(Back, s);
    assert TurnN(Back, 4, s) == Turn(Back, TurnN(Back, 3, s));
    BackFourthIdentityExactly(s);
  }

  /**
   * F's layer misses the eight positions four B moves exchange, so after
   * `reset` and F a B followed by `B_prime` gives back the state F left.
   */
  lemma BackPrimeAfterFrontRestores()
    ensures TurnN(Back, 3, Turn(Back, Turn(Front, Solved()))) == Turn(Front, Solved())
  {
    var u := Turn(Front, Solved());
    assert Src(Front, 0) == 0 && Src(Front, 2) == 2 && Src(Front, 11) == 11 && Src(Front, 17) == 17;
    assert Src(Front, 33) == 33 && Src(Front, 35) == 35 && Src(Front, 36) == 36 && Src(Front, 42) == 42;
    assert BackPairsAgree(u);
    BackPrimeUndoesBackExactly(u);
  }

  /** The state numbering its 54 positions, one distinct sticker each. */
  function Numbered(): State
  {
    seq(StickerCount, p requires 0 <= p < StickerCount => p as Byte)
  }

  /** B followed by three more B moves (what `B_prime` does) does not give back a general state. */
  lemma BackPrimeDoesNotUndoBack()
    ensures TurnN(Back, 3, Turn(Back, Numbered())) != Numbered()
  {
    var s := Numbered();
    TurnNAt(Back, 3, Turn(Back, s), 0);
    SrcNAdd(Back, 3, 1, 0);
    BackCycles(0);
  }

  /**
   * The defect is reachable from `reset`: after one U, a B followed by
   * three more B moves puts colour 1 at position 11, where U left colour 5.
   */
  lemma BackPrimeAfterUpFails()
    ensures Turn(Up, Solved())[11] == 5 && Turn(Up, Solved())[17] == 1
    ensures TurnN(Back, 3, Turn(Back, Turn(Up, Solved())))[11] == 1
    ensures TurnN(Back, 3, Turn(Back, Turn(Up, Solved()))) != Turn(Up, Solved())
  {
    var u := Turn(Up, Solved());
    assert Src(Up, 11) == 51 && Src(Up, 17) == 17;
    TurnNAt(Back, 3, Turn(Back, u), 11);
    SrcNAdd(Back, 3, 1, 11);
    BackCycles(11);
  }

  // ---------------------------------------------------------------------------
  // A move is a permutation: it keeps every sticker value and its multiplicity

  function Table(f: Face): (t: seq<nat>)
    ensures |t| == StickerCount && forall p :: 0 <= p < StickerCount ==> t[p] == Src(f, p)
  {
    seq(StickerCount, p requires 0 <= p < StickerCount => Src(f, p))
  }

  /** The table of the move that undoes `f`: `Order(f) - 1` more applications. */
  function InverseTable(f: Face): (t: seq<nat>)
    ensures |t| == StickerCount && forall p :: 0 <= p < StickerCount ==> t[p] == SrcN(f, Order(f) - 1, p)
  {
    seq(StickerCount, p requires 0 <= p < StickerCount => SrcN(f, Order(f) - 1, p))
  }

  lemma TablesInverse(f: Face)
    ensures Permutations.AreInverse(Table(f), InverseTable(f))
  {
    var t, u := Table(f), InverseTable(f);
    forall p | 0 <= p < StickerCount ensures t[u[p]] == p && u[t[p]] == p {
      InverseAt(f, p);
    }
  }

  /** `Order(f) - 1` applications undo one application, in either order. */
  lemma InverseAt(f: Face, p: nat)
    requires p < StickerCount
    ensures Src(f, SrcN(f, Order(f) - 1, p)) == p
    ensures SrcN(f, Order(f) - 1, Src(f, p)) == p
  {
    UndoAfter(f, p);
    UndoBefore(f, p);
  }

  lemma UndoAfter(f: Face, p: nat)
    requires p < StickerCount
    ensures Src(f, SrcN(f, Order(f) - 1, p)) == p
  {
    SrcNSucc(f, Order(f) - 1, p);
    OrderAt(f, p);
  }

  lemma UndoBefore(f: Face, p: nat)
    requires p < StickerCount
    ensures SrcN(f, Order(f) - 1, Src(f, p)) == p
  {
    var n := Order(f) - 1;
    assert SrcN(f, n + 1, p) == SrcN(f, n, Src(f, p));
    OrderAt(f, p);
  }

  lemma SrcNOne(f: Face, p: nat)
    requires p < StickerCount
    ensures SrcN(f, 1, p) == Src(f, p)
  {
  }

  /** Every face move rearranges the stickers without losing or duplicating any. */
  lemma TurnKeepsMultiset(f: Face, s: State)
    ensures multiset(Turn(f, s)) == multiset(s)
  {
    TablesInverse(f);
    assert Turn(f, s) == Permutations.Permute(s, Table(f));
    Permutations.PermuteKeepsMultiset(s, Table(f), InverseTable(f));
  }

  // ---------------------------------------------------------------------------
  // The solved state

  /** The first `n` faces of the solved state. */
  function SolvedFaces(n: nat): seq<Byte>
    requires n <= FaceCount
  {
    if n == 0 then [] else SolvedFaces(n - 1) + Permutations.Repeat((n - 1) as Byte, 9)
  }

  lemma {:induction false} SolvedFacesAt(n: nat, p: nat)
    requires n <= FaceCount
    ensures |SolvedFaces(n)| == 9 * n
    ensures p < 9 * n ==> SolvedFaces(n)[p] == (p / 9) as Byte
  {
    if n > 0 {
      SolvedFacesAt(n - 1, p);
    }
  }

  lemma {:induction false} SolvedFacesCount(n: nat, c: Byte)
    requires n <= FaceCount
    ensures multiset(SolvedFaces(n))[c] == if (c as int) < n then 9 else 0
  {
    if n > 0 {
      var colour := (n - 1) as Byte;
      var face := Permutations.Repeat(colour, 9);
      SolvedFacesCount(n - 1, c);
      Permutations.RepeatCount(colour, 9, c);
      assert SolvedFaces(n) == SolvedFaces(n - 1) + face;
      assert multiset(SolvedFaces(n))[c] == multiset(SolvedFaces(n - 1))[c] + multiset(face)[c];
      assert (colour == c) == ((c as int) == n - 1);
    }
  }

  /** After `reset` each of the six values occurs exactly nine times, and no other value occurs. */
  lemma SolvedCount(c: Byte)
    ensures multiset(Solved())[c] == if c < 6 then 9 else 0
  {
    forall p | 0 <= p < StickerCount ensures Solved()[p] == SolvedFaces(FaceCount)[p] {
      SolvedFacesAt(FaceCount, p);
    }
    SolvedFacesAt(FaceCount, 0);
    assert Solved() == SolvedFaces(FaceCount);
    SolvedFacesCount(FaceCount, c);
  }

  /** Every sticker of face `i` of the solved state has value `i`, so the solved test holds. */
  lemma SolvedIsSolved()
    ensures forall i, k :: 0 <= i < FaceCount && 0 <= k < 9 ==> FaceStickers(Solved(), i)[k] == i as Byte
    ensures IsSolvedState(Solved())
  {
  }

  /** The solved test holds exactly when any two stickers on one face are equal. */
  lemma IsSolvedStateMeans(s: State)
    ensures IsSolvedState(s) <==>
      forall p, q :: 0 <= p < StickerCount && 0 <= q < StickerCount && p / 9 == q / 9 ==> s[p] == s[q]
  {
    if IsSolvedState(s) {
      forall p, q | 0 <= p < StickerCount && 0 <= q < StickerCount && p / 9 == q / 9
        ensures s[p] == s[q]
      {
        var i := p / 9;
        assert Uniform(FaceStickers(s, i));
        assert FaceStickers(s, i)[p - 9 * i] == s[p] && FaceStickers(s, i)[q - 9 * i] == s[q];
      }
    }
  }

  /** A single move of any face from the solved state leaves it unsolved. */
  lemma TurnUnsolves(f: Face)
    ensures !IsSolvedState(Turn(f, Solved()))
  {
    var s := Turn(f, Solved());
    match f
    case Up => assert FaceStickers(s, 2)[3] != FaceStickers(s, 2)[0];
    case Right => assert FaceStickers(s, 2)[1] != FaceStickers(s, 2)[2];
    case Front => assert FaceStickers(s, 0)[0] != FaceStickers(s, 0)[6];
    case Down => assert FaceStickers(s, 2)[0] != FaceStickers(s, 2)[6];
    case Left => assert FaceStickers(s, 2)[1] != FaceStickers(s, 2)[0];
    case Back => assert FaceStickers(s, 0)[3] != FaceStickers(s, 0)[0];
  }

  // ---------------------------------------------------------------------------
  // The B move with its third triple (Down <- Left) taken in the order of a physical turn

  /**
   * The side table of B with `35 <- 42` and `33 <- 36` in place of `35 <- 36`
   * and `33 <- 42`. U and D place face L's back stickers, L and R face D's:
   * under that layout 36 is the left sticker of the up-back-left corner, which
   * B carries to the down-back-left corner (33), and 42 that of the
   * down-back-left corner, which B carries to the down-back-right one (35).
   */
  function CorrectedSideSrc(f: Face, p: nat): nat
  {
    if f == Back && p == 35 then 42 else if f == Back && p == 33 then 36 else SideSrc(f, p)
  }

  /** The move table with the corrected B; it differs from `Src` only at positions 33 and 35 of B. */
  function CorrectedSrc(f: Face, p: nat): (q: nat)
    requires p < StickerCount
    ensures q < StickerCount
    ensures f != Back || (p != 33 && p != 35) ==> q == Src(f, p)
    ensures f == Back && p == 35 ==> q == 42 && Src(f, p) == 36
    ensures f == Back && p == 33 ==> q == 36 && Src(f, p) == 42
  {
    if OnFace(f, p) then RotateFaceSrc(Index(f), p) else CorrectedSideSrc(f, p)
  }

  /** With the corrected B every face move, B included, has order four. */
  lemma CorrectedOrderFour(f: Face, p: nat)
    requires p < StickerCount
    ensures CorrectedSrc(f, CorrectedSrc(f, CorrectedSrc(f, CorrectedSrc(f, p)))) == p
  {
    var p1 := CorrectedSrc(f, p);
    var p2 := CorrectedSrc(f, p1);
    var p3 := CorrectedSrc(f, p2);
    if OnFace(f, p) {
      CorrectedOnFace(f, p); CorrectedOnFace(f, p1); CorrectedOnFace(f, p2); CorrectedOnFace(f, p3);
      RotationCycles(Index(f), p);
    } else {
      CorrectedOffFace(f, p); CorrectedOffFace(f, p1); CorrectedOffFace(f, p2); CorrectedOffFace(f, p3);
      if f == Back {
        CorrectedBackSideCycles(p);
      } else {
        SideCycles(f, p);
      }
    }
  }

  lemma CorrectedOnFace(f: Face, p: nat)
    requires p < StickerCount && OnFace(f, p)
    ensures CorrectedSrc(f, p) == RotateFaceSrc(Index(f), p) && OnFace(f, CorrectedSrc(f, p))
  {
  }

  lemma CorrectedOffFace(f: Face, p: nat)
    requires p < StickerCount && !OnFace(f, p)
    ensures CorrectedSrc(f, p) == CorrectedSideSrc(f, p) && !OnFace(f, CorrectedSrc(f, p))
    ensures f != Back ==> CorrectedSideSrc(f, p) == SideSrc(f, p)
  {
    SidesOffFace(f, p);
  }

  /** The corrected side table of B is made of the three 4-cycles 0→11→35→42, 1→14→34→39, 2→17→33→36. */
  lemma CorrectedBackSideCycles(p: nat)
    ensures CorrectedSideSrc(Back, 0) == 11 && CorrectedSideSrc(Back, 11) == 35
    ensures CorrectedSideSrc(Back, 35) == 42 && CorrectedSideSrc(Back, 42) == 0
    ensures CorrectedSideSrc(Back, 2) == 17 && CorrectedSideSrc(Back, 17) == 33
    ensures CorrectedSideSrc(Back, 33) == 36 && CorrectedSideSrc(Back, 36) == 2
    ensures CorrectedSideSrc(Back, CorrectedSideSrc(Back, CorrectedSideSrc(Back, CorrectedSideSrc(Back, p)))) == p
  {
  }

  /** A face move with the corrected B table. */
  function CorrectedTurn(f: Face, s: State): (t: State)
    ensures forall p :: 0 <= p < StickerCount ==> t[p] == s[CorrectedSrc(f, p)]
  {
    seq(StickerCount, p requires 0 <= p < StickerCount => s[CorrectedSrc(f, p)])
  }

  /** Four corrected turns of any face, B included, restore every state. */
  lemma CorrectedTurnOrderFour(f: Face, s: State)
    ensures CorrectedTurn(f, CorrectedTurn(f, CorrectedTurn(f, CorrectedTurn(f, s)))) == s
  {
    var t1 := CorrectedTurn(f, s);
    var t2 := CorrectedTurn(f, t1);
    var t3 := CorrectedTurn(f, t2);
    var t4 := CorrectedTurn(f, t3);
    forall p | 0 <= p < StickerCount ensures t4[p] == s[p] {
      CorrectedOrderFour(f, p);
    }
  }

  /** The corrected B differs from the B of the code at exactly positions 33 and 35. */
  lemma CorrectedTurnDiffers(s: State)
    ensures forall p :: 0 <= p < StickerCount && p != 33 && p != 35 ==> CorrectedTurn(Back, s)[p] == Turn(Back, s)[p]
    ensures CorrectedTurn(Back, s)[35] == s[42] && Turn(Back, s)[35] == s[36]
    ensures CorrectedTurn(Back, s)[33] == s[36] && Turn(Back, s)[33] == s[42]
  {
  }

  /**
   * The other one-line repair: the fourth triple (Left <- Up) written in
   * order, `36 <- 0` and `42 <- 2`. It also gives three 4-cycles, but it
   * takes the up sticker of the up-back-left corner (0) to the left sticker
   * of that same corner (36).
   */
  function ReorderedLastTripleSideSrc(p: nat): nat
  {
    if p == 36 then 0 else if p == 42 then 2 else SideSrc(Back, p)
  }

  lemma ReorderedLastTripleCycles(p: nat)
    ensures ReorderedLastTripleSideSrc(0) == 11 && ReorderedLastTripleSideSrc(11) == 35
    ensures ReorderedLastTripleSideSrc(35) == 36 && ReorderedLastTripleSideSrc(36) == 0
    ensures ReorderedLastTripleSideSrc(ReorderedLastTripleSideSrc(ReorderedLastTripleSideSrc(ReorderedLastTripleSideSrc(p)))) == p
  {
  }
}
