/**
 * `RubiksCube` (cube.js): the 54 stickers live in an array that every move
 * rewrites in place. Each method is proved to leave exactly the state that
 * the corresponding function of `Stickers` or `Notation` describes.
 */
module Cube {
  import opened Stickers
  import opened Notation

  class RubiksCube {
    var state: array<Byte>

    ghost predicate Valid()
      reads this
    {
      state.Length == StickerCount
    }

    constructor ()
      ensures Valid() && fresh(state) && state[..] == Solved()
    {
      state := new Byte[StickerCount];
      new;
      Reset();
    }

    /** A fresh array in which every sticker of face `i` has value `i`. */
    method Reset()
      modifies this
      ensures Valid() && fresh(state) && state[..] == Solved()
    {
      var a := new Byte[StickerCount];
      for i := 0 to FaceCount
        invariant forall p :: 0 <= p < 9 * i ==> a[p] == (p / 9) as Byte
      {
        for j := 0 to 9
          invariant forall p :: 0 <= p < 9 * i + j ==> a[p] == (p / 9) as Byte
        {
          a[9 * i + j] := i as Byte;
        }
      }
      state := a;
    }

    /**
     * `getFace`: `slice(9 * face, 9 * face + 9)`. As with `slice`, a negative
     * bound counts from the end of the array and both bounds are clamped to
     * `0 .. 54`, so faces -6 .. -2 name faces 0 .. 4 and every other face
     * outside `0 .. 5` gives an empty slice.
     */
    method GetFace(face: int) returns (r: seq<Byte>)
      requires Valid()
      ensures 0 <= face < FaceCount ==> r == FaceStickers(state[..], face)
      ensures -(FaceCount as int) <= face <= -2 ==> r == FaceStickers(state[..], face + FaceCount)
      ensures face >= FaceCount || face == -1 || face < -(FaceCount as int) ==> r == []
    {
      var start := SliceBound(9 * face);
      var end := SliceBound(9 * face + 9);
      if start < end {
        r := state[start .. end];
      } else {
        r := [];
      }
    }

    /** A `slice` bound: a negative one counts from the end of the array, then it is clamped. */
    function SliceBound(k: int): (b: nat)
      ensures b <= StickerCount
      ensures 0 <= k <= StickerCount ==> b == k
      ensures -(StickerCount as int) <= k < 0 ==> b == k + StickerCount
    {
      if k < 0 then (if k + StickerCount < 0 then 0 else k + StickerCount)
      else if k > StickerCount then StickerCount
      else k
    }

    /** Turns the nine stickers of `face` a quarter clockwise through a copy of the face. */
    method RotateFace(face: nat)
      requires Valid() && face < FaceCount
      modifies state
      ensures state[..] == RotatedFace(face, old(state[..]))
    {
      var start := 9 * face;
      var temp := new Byte[9];
      for i := 0 to 9
        modifies temp
        invariant forall k :: 0 <= k < i ==> temp[k] == state[start + k]
      {
        temp[i] := state[start + i];
      }
      RotatedFaceByAssignments(face, state[..]);
      state[start + 0] := temp[6];
      state[start + 1] := temp[3];
      state[start + 2] := temp[0];
      state[start + 3] := temp[7];
      state[start + 4] := temp[4];
      state[start + 5] := temp[1];
      state[start + 6] := temp[8];
      state[start + 7] := temp[5];
      state[start + 8] := temp[2];
    }

    method U()
      requires Valid()
      modifies state
      ensures state[..] == Turn(Up, old(state[..]))
    {
      RotateFace(0);
      ghost var rotated := state[..];
      var temp := new Byte[3];
      temp[0] := state[18]; temp[1] := state[19]; temp[2] := state[20];
      state[18] := state[9]; state[19] := state[10]; state[20] := state[11];
      state[9] := state[53]; state[10] := state[52]; state[11] := state[51];
      state[53] := state[36]; state[52] := state[37]; state[51] := state[38];
      state[36] := temp[0]; state[37] := temp[1]; state[38] := temp[2];
      assert state[..] == SideMoves(Up, rotated);
      UpIsRotationThenSides(old(state[..]));
    }

    method R()
      requires Valid()
      modifies state
      ensures state[..] == Turn(Right, old(state[..]))
    {
      RotateFace(1);
      ghost var rotated := state[..];
      var temp := new Byte[3];
      temp[0] := state[20]; temp[1] := state[23]; temp[2] := state[26];
      state[20] := state[29]; state[23] := state[32]; state[26] := state[35];
      state[29] := state[51]; state[32] := state[48]; state[35] := state[45];
      state[51] := state[2]; state[48] := state[5]; state[45] := state[8];
      state[2] := temp[0]; state[5] := temp[1]; state[8] := temp[2];
      assert state[..] == SideMoves(Right, rotated);
      RightIsRotationThenSides(old(state[..]));
    }

    method F()
      requires Valid()
      modifies state
      ensures state[..] == Turn(Front, old(state[..]))
    {
      RotateFace(2);
      ghost var rotated := state[..];
      var temp := new Byte[3];
      temp[0] := state[6]; temp[1] := state[7]; temp[2] := state[8];
      state[6] := state[44]; state[7] := state[41]; state[8] := state[38];
      state[44] := state[27]; state[41] := state[28]; state[38] := state[29];
      state[27] := state[9]; state[28] := state[12]; state[29] := state[15];
      state[9] := temp[0]; state[12] := temp[1]; state[15] := temp[2];
      assert state[..] == SideMoves(Front, rotated);
      FrontIsRotationThenSides(old(state[..]));
    }

    method D()
      requires Valid()
      modifies state
      ensures state[..] == Turn(Down, old(state[..]))
    {
      RotateFace(3);
      ghost var rotated := state[..];
      var temp := new Byte[3];
      temp[0] := state[24]; temp[1] := state[25]; temp[2] := state[26];
      state[24] := state[42]; state[25] := state[43]; state[26] := state[44];
      state[42] := state[47]; state[43] := state[46]; state[44] := state[45];
      state[47] := state[15]; state[46] := state[16]; state[45] := state[17];
      state[15] := temp[0]; state[16] := temp[1]; state[17] := temp[2];
      assert state[..] == SideMoves(Down, rotated);
      DownIsRotationThenSides(old(state[..]));
    }

    method L()
      requires Valid()
      modifies state
      ensures state[..] == Turn(Left, old(state[..]))
    {
      RotateFace(4);
      ghost var rotated := state[..];
      var temp := new Byte[3];
      temp[0] := state[18]; temp[1] := state[21]; temp[2] := state[24];
      state[18] := state[0]; state[21] := state[3]; state[24] := state[6];
      state[0] := state[53]; state[3] := state[50]; state[6] := state[47];
      state[53] := state[27]; state[50] := state[30]; state[47] := state[33];
      state[27] := temp[0]; state[30] := temp[1]; state[33] := temp[2];
      assert state[..] == SideMoves(Left, rotated);
      LeftIsRotationThenSides(old(state[..]));
    }

    method B()
      requires Valid()
      modifies state
      ensures state[..] == Turn(Back, old(state[..]))
    {
      RotateFace(5);
      ghost var rotated := state[..];
      var temp := new Byte[3];
      temp[0] := state[0]; temp[1] := state[1]; temp[2] := state[2];
      state[0] := state[11]; state[1] := state[14]; state[2] := state[17];
      state[11] := state[35]; state[14] := state[34]; state[17] := state[33];
      state[35] := state[36]; state[34] := state[39]; state[33] := state[42];
      state[36] := temp[2]; state[39] := temp[1]; state[42] := temp[0];
      assert state[..] == SideMoves(Back, rotated);
      BackIsRotationThenSides(old(state[..]));
    }

    // Prime moves: three base moves. Double moves: two base moves.

    method UPrime()
      requires Valid()
      modifies state
      ensures state[..] == TurnN(Up, 3, old(state[..]))
    {
      TurnNUnfold(Up, state[..]);
      U(); U(); U();
    }

    method RPrime()
      requires Valid()
      modifies state
      ensures state[..] == TurnN(Right, 3, old(state[..]))
    {
      TurnNUnfold(Right, state[..]);
      R(); R(); R();
    }

    method FPrime()
      requires Valid()
      modifies state
      ensures state[..] == TurnN(Front, 3, old(state[..]))
    {
      TurnNUnfold(Front, state[..]);
      F(); F(); F();
    }

    method DPrime()
      requires Valid()
      modifies state
      ensures state[..] == TurnN(Down, 3, old(state[..]))
    {
      TurnNUnfold(Down, state[..]);
      D(); D(); D();
    }

    method LPrime()
      requires Valid()
      modifies state
      ensures state[..] == TurnN(Left, 3, old(state[..]))
    {
      TurnNUnfold(Left, state[..]);
      L(); L(); L();
    }

    method BPrime()
      requires Valid()
      modifies state
      ensures state[..] == TurnN(Back, 3, old(state[..]))
    {
      TurnNUnfold(Back, state[..]);
      B(); B(); B();
    }

    method U2()
      requires Valid()
      modifies state
      ensures state[..] == TurnN(Up, 2, old(state[..]))
    {
      TurnNUnfold(Up, state[..]);
      U(); U();
    }

    method R2()
      requires Valid()
      modifies state
      ensures state[..] == TurnN(Right, 2, old(state[..]))
    {
      TurnNUnfold(Right, state[..]);
      R(); R();
    }

    method F2()
      requires Valid()
      modifies state
      ensures state[..] == TurnN(Front, 2, old(state[..]))
    {
      TurnNUnfold(Front, state[..]);
      F(); F();
    }

    method D2()
      requires Valid()
      modifies state
      ensures state[..] == TurnN(Down, 2, old(state[..]))
    {
      TurnNUnfold(Down, state[..]);
      D(); D();
    }

    method L2()
      requires Valid()
      modifies state
      ensures state[..] == TurnN(Left, 2, old(state[..]))
    {
      TurnNUnfold(Left, state[..]);
      L(); L();
    }

    method B2()
      requires Valid()
      modifies state
      ensures state[..] == TurnN(Back, 2, old(state[..]))
    {
      TurnNUnfold(Back, state[..]);
      B(); B();
    }

    /**
     * `executeMove`: looks the string up among the eighteen keys of `moveMap`
     * (`Parse`) and calls the method stored there; any other string leaves
     * the state unchanged.
     */
    method ExecuteMove(move: string)
      requires Valid()
      modifies state
      ensures state[..] == Execute(move, old(state[..]))
    {
      var entry := Parse(move);
      if entry.Some? {
        Perform(entry.value);
      }
    }

    /** The method `moveMap` stores for a move. */
    method Perform(m: Move)
      requires Valid()
      modifies state
      ensures state[..] == Apply(m, old(state[..]))
    {
      TurnNOne(m.face, state[..]);
      match m
      case Move(Up, Quarter) => U();
      case Move(Up, Prime) => UPrime();
      case Move(Up, Double) => U2();
      case Move(Right, Quarter) => R();
      case Move(Right, Prime) => RPrime();
      case Move(Right, Double) => R2();
      case Move(Front, Quarter) => F();
      case Move(Front, Prime) => FPrime();
      case Move(Front, Double) => F2();
      case Move(Down, Quarter) => D();
      case Move(Down, Prime) => DPrime();
      case Move(Down, Double) => D2();
      case Move(Left, Quarter) => L();
      case Move(Left, Prime) => LPrime();
      case Move(Left, Double) => L2();
      case Move(Back, Quarter) => B();
      case Move(Back, Prime) => BPrime();
      case Move(Back, Double) => B2();
    }

    /** A new cube whose array is a copy of this one's. */
    method Clone() returns (c: RubiksCube)
      requires Valid()
      ensures fresh(c) && fresh(c.state) && c.Valid()
      ensures c.state[..] == state[..]
    {
      c := new RubiksCube();
      var a := new Byte[StickerCount];
      forall i | 0 <= i < StickerCount {
        a[i] := state[i];
      }
      c.state := a;
    }

    /** Whether every face shows one colour: each sticker equals the first of its face. */
    method IsSolved() returns (b: bool)
      requires Valid()
      ensures b == IsSolvedState(state[..])
    {
      for face := 0 to FaceCount
        invariant forall i :: 0 <= i < face ==> Uniform(FaceStickers(state[..], i))
      {
        var color := state[face * 9];
        for i := 1 to 9
          invariant forall k :: 0 <= k < i ==> FaceStickers(state[..], face)[k] == color
        {
          if state[face * 9 + i] != color {
            assert FaceStickers(state[..], face)[i] != FaceStickers(state[..], face)[0];
            return false;
          }
        }
        assert Uniform(FaceStickers(state[..], face));
      }
      return true;
    }
  }
}
