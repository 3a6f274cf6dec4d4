/**
 * The integer and branch logic of `CubeRenderer` (renderer.js): which stickers
 * a face turn animates, how a face's stickers are numbered while it is drawn,
 * the target angle of an animation, and the queue of moves waiting to be
 * animated. Drawing, geometry and timing are not modelled.
 */
module Renderer {
  import opened Wrappers
  import opened Stickers
  import opened Notation
  import opened Cube

  /** JavaScript's `%`: the remainder takes the sign of the dividend. */
  function JsRem(a: int, b: int): (r: int)
    requires b > 0
    ensures a >= 0 ==> 0 <= r < b
    ensures a < 0 ==> -b < r <= 0
    ensures (a - r) % b == 0
  {
    if a >= 0 then
      RemainderLeavesMultiple(a, b);
      a % b
    else
      RemainderLeavesMultiple(-a, b);
      NegatedMultiple(-a - (-a) % b, b);
      -((-a) % b)
  }

  /** Taking off the (Euclidean) remainder leaves a multiple of the divisor. */
  lemma RemainderLeavesMultiple(x: int, b: int)
    requires b > 0
    ensures (x - x % b) % b == 0
  {
    var q := x / b;
    assert x - x % b == q * b;
    MultipleHasNoRemainder(q, b);
  }

  lemma NegatedMultiple(y: int, b: int)
    requires b > 0 && y % b == 0
    ensures (-y) % b == 0
  {
    var q := y / b;
    assert y == q * b;
    assert -y == (-q) * b;
    MultipleHasNoRemainder(-q, b);
  }

  lemma MultipleHasNoRemainder(q: int, b: int)
    requires b > 0
    ensures (q * b) % b == 0
  {
    var k := q - (q * b) / b;
    assert (q * b) % b == k * b;
  }

  /**
   * `isPartOfAnimatedFace`: whether sticker `stickerIndex` of `face` turns
   * with the face named by `animatedFace` (`None` for `undefined`).
   */
  predicate IsPartOfAnimatedFace(face: int, stickerIndex: int, animatedFace: Option<char>)
  {
    match animatedFace
    case None => false
    case Some(c) =>
      if c == 'U' then
        face == 0 || (face == 1 && stickerIndex < 3) || (face == 2 && stickerIndex < 3)
        || (face == 4 && stickerIndex < 3) || (face == 5 && stickerIndex < 3)
      else if c == 'D' then
        face == 3 || (face == 1 && stickerIndex >= 6) || (face == 2 && stickerIndex >= 6)
        || (face == 4 && stickerIndex >= 6) || (face == 5 && stickerIndex >= 6)
      else if c == 'R' then
        face == 1 || (face == 0 && JsRem(stickerIndex, 3) == 2) || (face == 2 && JsRem(stickerIndex, 3) == 2)
        || (face == 3 && JsRem(stickerIndex, 3) == 2) || (face == 5 && JsRem(stickerIndex, 3) == 0)
      else if c == 'L' then
        face == 4 || (face == 0 && JsRem(stickerIndex, 3) == 0) || (face == 2 && JsRem(stickerIndex, 3) == 0)
        || (face == 3 && JsRem(stickerIndex, 3) == 0) || (face == 5 && JsRem(stickerIndex, 3) == 2)
      else if c == 'F' then
        face == 2 || (face == 0 && stickerIndex >= 6) || (face == 1 && JsRem(stickerIndex, 3) == 0)
        || (face == 3 && stickerIndex < 3) || (face == 4 && JsRem(stickerIndex, 3) == 2)
      else if c == 'B' then
        face == 5 || (face == 0 && stickerIndex < 3) || (face == 1 && JsRem(stickerIndex, 3) == 2)
        || (face == 3 && stickerIndex >= 6) || (face == 4 && JsRem(stickerIndex, 3) == 0)
      else false
  }

  /** The indices `0 .. 8` of `face` that turn with the face of `letter`. */
  function SelectedOn(face: int, letter: char): (r: set<int>)
    ensures forall k :: k in r ==> 0 <= k < 9
  {
    set k | 0 <= k < 9 && IsPartOfAnimatedFace(face, k, Some(letter))
  }

  const AllNine: set<int> := {0, 1, 2, 3, 4, 5, 6, 7, 8}

  lemma AllNineCount()
    ensures |AllNine| == 9
  {
  }

  function Row(r: int): (s: set<int>)
    ensures |s| == 3
  {
    {3 * r, 3 * r + 1, 3 * r + 2}
  }

  function Column(c: int): (s: set<int>)
    ensures |s| == 3
  {
    {c, c + 3, c + 6}
  }

  /** Every sticker of the turning face itself turns, whatever its index. */
  lemma TurningFaceSelected(f: Face, k: int)
    ensures IsPartOfAnimatedFace(Index(f), k, Some(Letter(f)))
  {
  }

  /** No sticker of the face opposite the turning face turns. */
  lemma OppositeFaceNotSelected(f: Face, k: int)
    ensures !IsPartOfAnimatedFace(Index(Opposite(f)), k, Some(Letter(f)))
  {
  }

  /** A character that names no face, or no animation at all, selects nothing. */
  lemma OtherLettersSelectNothing(face: int, k: int, c: char)
    requires c !in "UDRLFB"
    ensures !IsPartOfAnimatedFace(face, k, Some(c))
    ensures !IsPartOfAnimatedFace(face, k, None)
  {
    assert c != 'U' && c != 'D' && c != 'R' && c != 'L' && c != 'F' && c != 'B' by {
      assert "UDRLFB"[0] == 'U' && "UDRLFB"[1] == 'D' && "UDRLFB"[2] == 'R';
      assert "UDRLFB"[3] == 'L' && "UDRLFB"[4] == 'F' && "UDRLFB"[5] == 'B';
    }
  }

  /** On each of the four faces next to the turning face, one row or one column of three stickers turns. */
  lemma AdjacentFaceSelectsLine(f: Face, g: Face)
    requires g != f && g != Opposite(f)
    ensures var s := SelectedOn(Index(g), Letter(f));
      (s == Row(0) || s == Row(2) || s == Column(0) || s == Column(2)) && |s| == 3
  {
    match f
    case Up => UpLines();
    case Down => DownLines();
    case Right => RightLines();
    case Left => LeftLines();
    case Front => FrontLines();
    case Back => BackLines();
  }

  lemma UpLines()
    ensures SelectedOn(1, 'U') == Row(0)
    ensures SelectedOn(2, 'U') == Row(0)
    ensures SelectedOn(4, 'U') == Row(0)
    ensures SelectedOn(5, 'U') == Row(0)
  {
  }

  lemma DownLines()
    ensures SelectedOn(1, 'D') == Row(2)
    ensures SelectedOn(2, 'D') == Row(2)
    ensures SelectedOn(4, 'D') == Row(2)
    ensures SelectedOn(5, 'D') == Row(2)
  {
  }

  lemma RightLines()
    ensures SelectedOn(0, 'R') == Column(2)
    ensures SelectedOn(2, 'R') == Column(2)
    ensures SelectedOn(3, 'R') == Column(2)
    ensures SelectedOn(5, 'R') == Column(0)
  {
  }

  lemma LeftLines()
    ensures SelectedOn(0, 'L') == Column(0)
    ensures SelectedOn(2, 'L') == Column(0)
    ensures SelectedOn(3, 'L') == Column(0)
    ensures SelectedOn(5, 'L') == Column(2)
  {
  }

  lemma FrontLines()
    ensures SelectedOn(0, 'F') == Row(2)
    ensures SelectedOn(1, 'F') == Column(0)
    ensures SelectedOn(3, 'F') == Row(0)
    ensures SelectedOn(4, 'F') == Column(2)
  {
  }

  lemma BackLines()
    ensures SelectedOn(0, 'B') == Row(0)
    ensures SelectedOn(1, 'B') == Column(2)
    ensures SelectedOn(3, 'B') == Row(2)
    ensures SelectedOn(4, 'B') == Column(0)
  {
  }

  /** All nine stickers of the turning face turn, none of the opposite face. */
  lemma TurningAndOppositeFaces(f: Face)
    ensures SelectedOn(Index(f), Letter(f)) == AllNine
    ensures SelectedOn(Index(Opposite(f)), Letter(f)) == {}
    ensures |SelectedOn(Index(f), Letter(f))| == 9
  {
    var all := SelectedOn(Index(f), Letter(f));
    forall k | k in AllNine ensures k in all {
      TurningFaceSelected(f, k);
    }
    forall k | k in SelectedOn(Index(Opposite(f)), Letter(f)) ensures false {
      OppositeFaceNotSelected(f, k);
    }
    assert all == AllNine;
    AllNineCount();
  }

  /** The number of (face, index) pairs over the first `n` faces that turn with `letter`. */
  function SelectedCount(letter: char, n: nat): nat
    requires n <= FaceCount
  {
    if n == 0 then 0 else SelectedCount(letter, n - 1) + |SelectedOn(n - 1, letter)|
  }

  lemma SelectedOnFace(f: Face, i: nat)
    requires i < FaceCount
    ensures |SelectedOn(i, Letter(f))| == if i == Index(f) then 9 else if i == Index(Opposite(f)) then 0 else 3
  {
    TurningAndOppositeFaces(f);
    var g := FaceAt(i);
    if i != Index(f) && i != Index(Opposite(f)) {
      AdjacentFaceSelectsLine(f, g);
    }
  }

  /** Each face turn animates 9 + 4 * 3 = 21 stickers. */
  lemma TwentyOneStickersTurn(f: Face)
    ensures SelectedCount(Letter(f), FaceCount) == 21
  {
    SelectedOnFace(f, 0);
    SelectedOnFace(f, 1);
    SelectedOnFace(f, 2);
    SelectedOnFace(f, 3);
    SelectedOnFace(f, 4);
    SelectedOnFace(f, 5);
  }

  // ---------------------------------------------------------------------------
  // Sticker numbering while a face is drawn

  /**
   * The `index` `getFaceStickers` gives the sticker in `row`, `col` of `face`:
   * row-major, with the rows of the back face flipped; `None` (`undefined`)
   * for a face number the `switch` has no case for.
   */
  function StickerIndex(face: int, row: int, col: int): (r: Option<int>)
    ensures r.Some? <==> 0 <= face < FaceCount
    ensures r.Some? && 0 <= row < 3 && 0 <= col < 3 ==> 0 <= r.value < 9
  {
    if 0 <= face < 5 then Some(row * 3 + col)
    else if face == 5 then Some((2 - row) * 3 + col)
    else None
  }

  /** The nine indices in drawing order, as `getFaceStickers` pushes them. */
  method FaceStickerIndices(face: int) returns (indices: seq<Option<int>>)
    ensures |indices| == 9
    ensures forall r, c :: 0 <= r < 3 && 0 <= c < 3 ==> indices[3 * r + c] == StickerIndex(face, r, c)
    ensures 0 <= face < FaceCount ==> IsPermutationOfNine(indices)
    ensures !(0 <= face < FaceCount) ==> forall j :: 0 <= j < 9 ==> indices[j].None?
  {
    indices := [];
    for row := 0 to 3
      invariant |indices| == 3 * row
      invariant forall r, c :: 0 <= r < row && 0 <= c < 3 ==> indices[3 * r + c] == StickerIndex(face, r, c)
    {
      for col := 0 to 3
        invariant |indices| == 3 * row + col
        invariant forall r, c :: 0 <= r < row && 0 <= c < 3 ==> indices[3 * r + c] == StickerIndex(face, r, c)
        invariant forall c :: 0 <= c < col ==> indices[3 * row + c] == StickerIndex(face, row, c)
      {
        indices := indices + [StickerIndex(face, row, col)];
      }
    }
    NumberingIsPermutation(face, indices);
  }

  /** The indices `0 .. 8`, in order. */
  const Nine: seq<Option<int>> := [Some(0), Some(1), Some(2), Some(3), Some(4), Some(5), Some(6), Some(7), Some(8)]

  /** The nine entries are the indices `0 .. 8`, each exactly once. */
  ghost predicate IsPermutationOfNine(indices: seq<Option<int>>)
  {
    multiset(indices) == multiset(Nine)
  }

  /**
   * For each face the nine drawn stickers carry the nine indices of the
   * face, each once: in order on the first five faces, with the rows taken
   * bottom to top on the back face.
   */
  lemma NumberingIsPermutation(face: int, indices: seq<Option<int>>)
    requires |indices| == 9
    requires forall r, c :: 0 <= r < 3 && 0 <= c < 3 ==> indices[3 * r + c] == StickerIndex(face, r, c)
    ensures !(0 <= face < FaceCount) ==> forall j :: 0 <= j < 9 ==> indices[j].None?
    ensures 0 <= face < 5 ==> indices == Nine
    ensures face == 5 ==> indices == Nine[6..] + Nine[3..6] + Nine[..3]
    ensures 0 <= face < FaceCount ==> IsPermutationOfNine(indices)
  {
    if face == 5 {
      BackNumbering(indices);
    } else if 0 <= face < 5 {
      FrontNumbering(face, indices);
    } else {
      forall j | 0 <= j < 9 ensures indices[j].None? {
        assert indices[j] == StickerIndex(face, j / 3, j % 3);
      }
    }
  }

  lemma FrontNumbering(face: int, indices: seq<Option<int>>)
    requires 0 <= face < 5 && |indices| == 9
    requires forall r, c :: 0 <= r < 3 && 0 <= c < 3 ==> indices[3 * r + c] == StickerIndex(face, r, c)
    ensures indices == Nine
  {
    assert indices[0] == StickerIndex(face, 0, 0) && indices[1] == StickerIndex(face, 0, 1);
    assert indices[2] == StickerIndex(face, 0, 2) && indices[3] == StickerIndex(face, 1, 0);
    assert indices[4] == StickerIndex(face, 1, 1) && indices[5] == StickerIndex(face, 1, 2);
    assert indices[6] == StickerIndex(face, 2, 0) && indices[7] == StickerIndex(face, 2, 1);
    assert indices[8] == StickerIndex(face, 2, 2);
  }

  lemma BackNumbering(indices: seq<Option<int>>)
    requires |indices| == 9
    requires forall r, c :: 0 <= r < 3 && 0 <= c < 3 ==> indices[3 * r + c] == StickerIndex(5, r, c)
    ensures indices == Nine[6..] + Nine[3..6] + Nine[..3]
    ensures IsPermutationOfNine(indices)
  {
    assert indices[3 * 0 + 0] == StickerIndex(5, 0, 0) == Some(6);
    assert indices[3 * 0 + 1] == StickerIndex(5, 0, 1) == Some(7);
    assert indices[3 * 0 + 2] == StickerIndex(5, 0, 2) == Some(8);
    assert indices[3 * 1 + 0] == StickerIndex(5, 1, 0) == Some(3);
    assert indices[3 * 1 + 1] == StickerIndex(5, 1, 1) == Some(4);
    assert indices[3 * 1 + 2] == StickerIndex(5, 1, 2) == Some(5);
    assert indices[3 * 2 + 0] == StickerIndex(5, 2, 0) == Some(0);
    assert indices[3 * 2 + 1] == StickerIndex(5, 2, 1) == Some(1);
    assert indices[3 * 2 + 2] == StickerIndex(5, 2, 2) == Some(2);
    assert indices == BackOrder;
    BackOrderIsPermutation();
  }

  /** The order in which the back face's indices are drawn. */
  const BackOrder: seq<Option<int>> := [Some(6), Some(7), Some(8), Some(3), Some(4), Some(5), Some(0), Some(1), Some(2)]

  lemma BackOrderIsPermutation()
    ensures BackOrder == Nine[6..] + Nine[3..6] + Nine[..3]
    ensures multiset(BackOrder) == multiset(Nine)
  {
    assert BackOrder == Nine[6..] + Nine[3..6] + Nine[..3];
    assert Nine == Nine[..3] + Nine[3..6] + Nine[6..];
    ReversedThirds(Nine[..3], Nine[3..6], Nine[6..]);
  }

  /** Putting three blocks in the reverse order keeps every entry. */
  lemma ReversedThirds<T>(x: seq<T>, y: seq<T>, z: seq<T>)
    ensures multiset(z + y + x) == multiset(x + y + z)
  {
    calc {
      multiset(z + y + x);
      multiset(z) + multiset(y) + multiset(x);
      multiset(x) + multiset(y) + multiset(z);
      multiset(x + y + z);
    }
  }

  // ---------------------------------------------------------------------------
  // The animation a move starts

  /** The face letter and the final angle of an animation (`currentAnimation` at its last frame). */
  datatype Animation = Animation(face: Option<char>, angle: int)

  /**
   * The `maxAngle` and `face` `animateMove` derives from a move string:
   * 180 when it contains `2`, otherwise -90 when it contains `'`, otherwise 90;
   * the face is its first character.
   */
  function AnimationOf(move: string): (a: Animation)
    ensures a.angle == 90 || a.angle == -90 || a.angle == 180
    ensures a.face.Some? <==> |move| > 0
  {
    Animation(if |move| > 0 then Some(move[0]) else None,
              if '2' in move then 180 else if '\'' in move then -90 else 90)
  }

  /**
   * For each of the eighteen tokens the animation shows the face the move
   * turns, and turns it by the angle the move turns it, up to whole turns.
   */
  lemma AnimationOfToken(m: Move)
    ensures AnimationOf(Token(m)).face == Some(Letter(m.face))
    ensures (AnimationOf(Token(m)).angle - 90 * Repetitions(m.amount)) % 360 == 0
    ensures AnimationOf(Token(m)).angle == match m.amount case Quarter => 90 case Prime => -90 case Double => 180
  {
    var t := Token(m);
    assert t[0] == Letter(m.face);
    assert Letter(m.face) != '2' && Letter(m.face) != '\'';
    match m.amount
    case Quarter => assert t == [Letter(m.face)];
    case Prime => assert t == [Letter(m.face), '\''];
    case Double => assert t == [Letter(m.face), '2'];
  }

  /** The stickers the animation of a token turns include the whole face the token turns. */
  lemma AnimatedFaceIsTurnedFace(m: Move, k: int)
    ensures IsPartOfAnimatedFace(Index(m.face), k, AnimationOf(Token(m)).face)
  {
    AnimationOfToken(m);
    TurningFaceSelected(m.face, k);
  }

  // ---------------------------------------------------------------------------
  // The renderer's animation state

  class CubeRenderer {
    const cube: RubiksCube
    var isAnimating: bool
    var animationQueue: seq<string>
    var currentAnimation: Option<Animation>

    ghost predicate Valid()
      reads this, cube
    {
      cube.Valid()
    }

    constructor (cube: RubiksCube)
      requires cube.Valid()
      ensures Valid() && this.cube == cube
      ensures !isAnimating && animationQueue == [] && currentAnimation == None
    {
      this.cube := cube;
      isAnimating := false;
      animationQueue := [];
      currentAnimation := None;
    }

    /**
     * `animateMove` with the frames collapsed: the last frame shows the
     * animation at its final angle, then the move is executed on the cube
     * and the animation is cleared.
     */
    method AnimateMove(move: string)
      requires Valid()
      modifies this, cube.state
      ensures Valid()
      ensures cube.state[..] == Execute(move, old(cube.state[..]))
      ensures currentAnimation == None
      ensures isAnimating == old(isAnimating) && animationQueue == old(animationQueue)
    {
      currentAnimation := Some(AnimationOf(move));
      cube.ExecuteMove(move);
      currentAnimation := None;
    }

    /**
     * `processAnimationQueue`: unless an animation is running or the queue
     * is empty, takes the moves off the front of the queue one at a time and
     * animates each, then clears `isAnimating`.
     */
    method ProcessAnimationQueue()
      requires Valid()
      modifies this, cube.state
      ensures Valid()
      ensures old(isAnimating) || old(animationQueue) == [] ==>
        cube.state[..] == old(cube.state[..]) && animationQueue == old(animationQueue)
        && isAnimating == old(isAnimating) && currentAnimation == old(currentAnimation)
      ensures !old(isAnimating) && old(animationQueue) != [] ==>
        cube.state[..] == ExecuteAll(old(animationQueue), old(cube.state[..]))
        && animationQueue == [] && !isAnimating && currentAnimation == None
    {
      if isAnimating || |animationQueue| == 0 {
        return;
      }
      isAnimating := true;
      while |animationQueue| > 0
        invariant Valid() && isAnimating
        invariant ExecuteAll(animationQueue, cube.state[..]) == ExecuteAll(old(animationQueue), old(cube.state[..]))
        invariant currentAnimation == None || animationQueue == old(animationQueue)
        decreases |animationQueue|
      {
        var move := animationQueue[0];
        animationQueue := animationQueue[1..];
        AnimateMove(move);
      }
      isAnimating := false;
    }
  }
}
