# rubiks-sim: a verified model of the sticker cube and its animation logic

rubiks-sim is a browser simulator of a 3×3 puzzle cube. Its logic lives in two files.

`cube.js` holds `RubiksCube`. It keeps 54 sticker values in a `Uint8Array`, six faces of nine stickers in the order U, R, F, D, L, B. Every face move rewrites that array in place:

- a quarter turn of the face's own nine stickers (`rotateFace`);
- then four hand-written triples of side stickers, moved through a three-element buffer.

`renderer.js` holds `CubeRenderer`. This model covers its integer and branch logic:

- which stickers an animated turn carries along;
- how a face's stickers are numbered while it is drawn;
- the target angle of an animation;
- the queue of moves waiting to be animated.

The project is organised as follows:

- `stickers.dfy` (module `Stickers`) describes each move as a pure source-index table: `Src(f, p)` is the position whose sticker position `p` receives. Cycles are written in that reading direction: `a→b` means position `a` receives the sticker at `b`, so the stickers themselves travel against the arrows. On these tables it proves the move facts:
  - each move is a permutation, so the colour counts are kept;
  - what a move writes and what it leaves alone;
  - centres never move;
  - the four cycles of U, R, F, D and L;
  - the cycle structure of B as written.
- `notation.dfy` (module `Notation`) covers the eighteen tokens of `executeMove` and `getRandomMove`, and what a token, or a sequence of tokens, does to the state.
- `cube.dfy` (module `Cube`) holds `RubiksCube` as a class over an `array` of bytes. Every method is proved to leave exactly the state the tables describe.
- `renderer.dfy` (module `Renderer`) holds the `CubeRenderer` slice: the animated-sticker predicate, the sticker numbering, the animation angle and the queue drain as a class.
- `permutations.dfy` and `option.dfy` are small generic helpers: applying a table, counting occurrences, and `Option`.

`cube.js` works on stickers only, and `executeMove` silently ignores a string that is not a move key. The model follows `cube.js`:

- an unknown string leaves the state unchanged;
- B keeps the side table exactly as written, so B does not have order four (see "Findings").

## Model

| member | source | states |
|---|---|---|
| Stickers.RotatedFaceByAssignments | cube.js:38-46 | the nine assignments of `rotateFace`, each reading the copy of the face, produce the quarter turn of the face |
| Stickers.RotateFaceFrame | cube.js:28-47 | `rotateFace(i)` changes only positions `9i .. 9i+8`, and never the centre `9i+4` |
| Stickers.RotateFaceOrderFour | cube.js:28-47 | four `rotateFace(i)` restore every state |
| Stickers.RotationCycles | cube.js:37-46 | the quarter turn of one face has order four at every position |
| Stickers.FaceTurnSrc | cube.js:37-46 | the quarter turn of a face reads each of its nine stickers from a position of the same face |
| Stickers.RotatedFace | cube.js:37-46 | `rotateFace(i)` as a state: position `9i + k` receives the sticker the assignment list names, every other position keeps its sticker |
| Stickers.SideSrc | cube.js:55-167 | the twelve side assignments of each move as a table: each listed side position receives the sticker its assignment reads, every other position reads itself |
| Stickers.Src | cube.js:50-168 | every move reads each of its positions from a position inside the 54 |
| Stickers.Turn | cube.js:50-168 | the state after one face move: position `p` receives the sticker at `Src(f, p)` |
| Stickers.TurnN | cube.js:171-184 | the state after `n` successive moves of one face |
| Stickers.TurnIsRotationThenSides | cube.js:50-168 | a move is `rotateFace` of its face followed by its twelve side assignments (`SideMoves`) |
| Stickers.SidesOffFace | cube.js:50-168 | the side assignments neither read nor write the turning face's own nine stickers |
| Stickers.SideTargetsMoved | cube.js:50-168 | the side table moves exactly its twelve listed positions |
| Stickers.SidesMissCentres | cube.js:50-168 | no side list contains a centre 4, 13, 22, 31, 40 or 49 |
| Stickers.RotationMovesAllButCentre | cube.js:37-46 | the quarter turn moves every sticker of its face except the centre |
| Stickers.CentresFixed | cube.js:50-168 | no move changes any of the six centre stickers |
| Stickers.MoveFrame | cube.js:50-168 | a move changes position `p` exactly when `p` is on its face or in its twelve side positions, and `p` is not its centre |
| Stickers.TurnKeepsUntouched | cube.js:50-168 | after a move, every position outside its face and its side list keeps its sticker |
| Stickers.TurnNAt | cube.js:171-184 | `n` moves put at `p` the sticker from the `n`-fold table `SrcN(f, n, p)` |
| Stickers.SrcNAdd | cube.js:171-184 | `m + n` applications of a table are `m` applications followed by `n` |
| Stickers.SrcNSucc | cube.js:171-184 | `n + 1` applications of a table are `n` applications followed by one more |
| Stickers.QuarterCycles | cube.js:50-148 | for U, R, F, D and L four applications of the table return every position |
| Stickers.QuarterOrderFour | cube.js:50-148 | for U, R, F, D and L, four moves, or one move and three more in either order, restore every state |
| Stickers.BackCycles | cube.js:150-168 | B as written moves 0→11→35→36→2→17→33→42 (an 8-cycle) and 1→14→34→39 (a 4-cycle); four applications swap exactly (0 2)(11 17)(33 35)(36 42) |
| Stickers.BackFour | cube.js:150-168 | four applications of B's table equal the four exchanges `BackFourthSrc` |
| Stickers.BackFourthPower | cube.js:150-168 | four B moves apply exactly the exchanges (0 2)(11 17)(33 35)(36 42) to any state |
| Stickers.BackFourthKeepsSolved | cube.js:150-168 | four B moves still leave the reset state unchanged |
| Stickers.BackPrimeAfterUpFails | cube.js:150-176 | after `reset` and `U`, position 11 holds value 5 and position 17 value 1; `B` then `B_prime` puts value 1 at position 11, so the state `U` left is not restored |
| Stickers.BackPairsAgree | cube.js:150-168 | the four pairs (0, 2), (11, 17), (33, 35) and (36, 42) that four B moves exchange hold equal stickers |
| Stickers.BackFourthIdentityExactly | cube.js:150-168 | four B moves give back a state exactly when its four exchanged pairs agree |
| Stickers.BackPrimeUndoesBackExactly | cube.js:150-176 | `B` then `B_prime` gives back a state exactly when its four exchanged pairs agree |
| Stickers.BackPrimeAfterFrontRestores | cube.js:90-176 | after `reset` and `F`, `B` then `B_prime` gives back the state `F` left, because `F` moves none of the eight exchanged positions |
| Stickers.BackPrimeDoesNotUndoBack | cube.js:176 | B followed by three B moves (`B_prime`) does not restore a state whose 54 stickers are distinct |
| Stickers.OrderAt | cube.js:50-168 | `Order(f)` applications (4 for U, R, F, D, L; 8 for B) return every position |
| Stickers.TurnOrder | cube.js:50-168 | `Order(f)` moves restore every state |
| Stickers.TablesInverse | cube.js:50-168 | every move's table has an inverse table, `Order(f) - 1` applications |
| Stickers.InverseAt | cube.js:50-168 | `Order(f) - 1` applications undo one application, in either order |
| Stickers.TurnKeepsMultiset | cube.js:50-168 | every move keeps the multiset of sticker values |
| Stickers.Solved | cube.js:14-18 | the state `reset` builds: every sticker of face `i` holds value `i` |
| Stickers.IsSolvedState | cube.js:229-239 | the solved test: every sticker of each face equals the face's first sticker |
| Stickers.SolvedFacesAt | cube.js:14-18 | the faces `reset` has filled so far hold value `p / 9` at position `p` |
| Stickers.SolvedFacesCount | cube.js:14-18 | after filling `n` faces each value below `n` occurs nine times and no other value occurs |
| Stickers.SolvedCount | cube.js:7-19 | after `reset` each value 0..5 occurs nine times and no other value occurs |
| Stickers.SolvedIsSolved | cube.js:7-19 | after `reset` every sticker of face `i` is `i`, and the solved test holds |
| Stickers.IsSolvedStateMeans | cube.js:229-239 | the solved test holds exactly when any two stickers on one face are equal |
| Stickers.TurnUnsolves | cube.js:229-239 | one move of any face from the reset state makes the solved test false |
| Stickers.CorrectedSideSrc | cube.js:164 | the corrected side table of B: position 35 reads 42 and position 33 reads 36, every other entry as written |
| Stickers.CorrectedSrc | cube.js:164 | the corrected table differs from the code's only for B at 35 (reads 42, not 36) and 33 (reads 36, not 42) |
| Stickers.CorrectedOnFace | cube.js:37-46 | on the turning face the corrected table is the quarter turn, as in the code |
| Stickers.CorrectedOffFace | cube.js:55-167 | off the turning face the corrected table is the side table, unchanged for U, R, F, D and L |
| Stickers.CorrectedOrderFour | cube.js:158-167 | with the corrected B table every face table has order four at every position |
| Stickers.CorrectedBackSideCycles | cube.js:158-167 | the corrected side table of B is the 4-cycles 0→11→35→42→0, 2→17→33→36→2 and 1→14→34→39→1, so four applications return every position |
| Stickers.CorrectedTurn | cube.js:150-168 | the corrected move: position `p` receives the sticker at `CorrectedSrc(f, p)` |
| Stickers.CorrectedTurnOrderFour | cube.js:150-168 | four corrected moves of any face, B included, restore every state |
| Stickers.CorrectedTurnDiffers | cube.js:164 | corrected B and B as written agree everywhere except positions 35 and 33, where they read 42/36 instead of 36/42 |
| Stickers.ReorderedLastTripleSideSrc | cube.js:167 | the other one-line repair, in the last triple: 36 reads 0 and 42 reads 2 |
| Stickers.ReorderedLastTripleCycles | cube.js:167 | that repair also makes B's side stickers 4-cycles (0→11→35→36→0), but as 36 then reads 0, the sticker at position 0 moves to position 36 on the same corner |
| Notation.FaceOfLetter | cube.js:188-207 | a letter maps to the face it names, and a character that is not a face letter maps to none |
| Notation.Parse | cube.js:188-207 | a string is recognised as a move only when it is that move's `moveMap` key |
| Notation.ParseToken | cube.js:188-207 | every one of the eighteen keys is recognised as its own move |
| Notation.Execute | cube.js:187-212 | `executeMove`: a recognised key performs its move, any other string leaves the state unchanged |
| Notation.ExecuteAll | renderer.js:79-82 | the moves of a queue executed one after the other, front first |
| Notation.ExecuteToken | cube.js:187-212 | executing a key performs its face move once, three times (`'`) or twice (`2`) |
| Notation.Tokens | cube.js:216-217 | the eighteen keys in the order `getRandomMove` lists them |
| Notation.TokenListed | cube.js:216-217 | every move's key is in the `getRandomMove` list |
| Notation.TokensAreTheMoves | cube.js:216-217 | a string is in the `getRandomMove` list exactly when `executeMove` recognises it |
| Notation.RandomMove | cube.js:215-219 | for any draw in range `getRandomMove` returns a listed key that `executeMove` recognises |
| Notation.DoubleAndPrime | cube.js:171-184 | `X2` is `X` twice and `X'` is `X` three times |
| Notation.PrimeUndoesQuarter | cube.js:171-175 | for U, R, F, D and L the prime key undoes the base key, in either order |
| Notation.Spellings | cube.js:189-205 | the keys of U, B and B' are the strings `U`, `B` and `B'` |
| Notation.BackPrimeFails | cube.js:176 | executing `B` then `B'` does not restore the state of 54 distinct stickers |
| Notation.BackPrimeFailsAfterUp | cube.js:176 | after `reset` and `U`, executing `B` then `B'` does not give back the state `U` left |
| Notation.ExecuteKeepsMultiset | cube.js:187-212 | every string, recognised or not, keeps the multiset of sticker values |
| Notation.ExecuteAllKeepsMultiset | cube.js:187-212 | any sequence of strings keeps the multiset of sticker values |
| Notation.ColoursAfterReset | cube.js:7-212 | after `reset` and any sequence of strings each value 0..5 occurs exactly nine times |
| Notation.TurnNKeepsCentres | cube.js:171-184 | repeated moves never change a centre |
| Notation.ExecuteAllKeepsCentres | cube.js:187-212 | no sequence of strings changes a centre |
| Notation.Unsolved | cube.js:229-239 | if two stickers of one face come from different faces, the solved test fails |
| Notation.FaceMovesUnsolve | cube.js:229-239 | a key whose move brings two differently coloured stickers onto one face unsolves the reset state |
| Notation.UpMovesUnsolve | cube.js:229-239 | `U`, `U'` and `U2` from the reset state make the solved test false |
| Notation.RightMovesUnsolve | cube.js:229-239 | `R`, `R'` and `R2` from the reset state make the solved test false |
| Notation.FrontMovesUnsolve | cube.js:229-239 | `F`, `F'` and `F2` from the reset state make the solved test false |
| Notation.DownMovesUnsolve | cube.js:229-239 | `D`, `D'` and `D2` from the reset state make the solved test false |
| Notation.LeftMovesUnsolve | cube.js:229-239 | `L`, `L'` and `L2` from the reset state make the solved test false |
| Notation.BackMovesUnsolve | cube.js:229-239 | `B`, `B'` and `B2` from the reset state make the solved test false |
| Notation.MoveUnsolves | cube.js:229-239 | any one of the eighteen keys from the reset state makes the solved test false |
| Cube.RubiksCube.constructor | cube.js:3-5 | a new cube holds a fresh 54-entry array in the reset state |
| Cube.RubiksCube.Reset | cube.js:7-19 | `reset` leaves a fresh 54-entry array with every sticker of face `i` equal to `i` |
| Cube.RubiksCube.GetFace | cube.js:22-25 | `getFace` returns the nine stickers of faces 0..5; as `slice` counts a negative bound from the end, faces -6..-2 give faces 0..4; every other face gives an empty slice |
| Cube.RubiksCube.SliceBound | cube.js:24 | a `slice` bound: a negative one is counted from the end, then both are clamped to 0..54 |
| Cube.RubiksCube.RotateFace | cube.js:28-47 | `rotateFace` leaves the array equal to the quarter turn of the face |
| Cube.RubiksCube.U | cube.js:50-68 | `U()` leaves the array equal to the U table applied to the old array |
| Cube.RubiksCube.R | cube.js:70-88 | `R()` leaves the array equal to the R table applied to the old array |
| Cube.RubiksCube.F | cube.js:90-108 | `F()` leaves the array equal to the F table applied to the old array |
| Cube.RubiksCube.D | cube.js:110-128 | `D()` leaves the array equal to the D table applied to the old array |
| Cube.RubiksCube.L | cube.js:130-148 | `L()` leaves the array equal to the L table applied to the old array |
| Cube.RubiksCube.B | cube.js:150-168 | `B()` leaves the array equal to the B table, as written, applied to the old array |
| Cube.RubiksCube.UPrime | cube.js:171 | `U_prime` is three U moves |
| Cube.RubiksCube.RPrime | cube.js:172 | `R_prime` is three R moves |
| Cube.RubiksCube.FPrime | cube.js:173 | `F_prime` is three F moves |
| Cube.RubiksCube.DPrime | cube.js:174 | `D_prime` is three D moves |
| Cube.RubiksCube.LPrime | cube.js:175 | `L_prime` is three L moves |
| Cube.RubiksCube.BPrime | cube.js:176 | `B_prime` is three B moves |
| Cube.RubiksCube.U2 | cube.js:179 | `U2` is two U moves |
| Cube.RubiksCube.R2 | cube.js:180 | `R2` is two R moves |
| Cube.RubiksCube.F2 | cube.js:181 | `F2` is two F moves |
| Cube.RubiksCube.D2 | cube.js:182 | `D2` is two D moves |
| Cube.RubiksCube.L2 | cube.js:183 | `L2` is two L moves |
| Cube.RubiksCube.B2 | cube.js:184 | `B2` is two B moves |
| Cube.RubiksCube.ExecuteMove | cube.js:187-212 | `executeMove` performs the move of a recognised key and leaves the array unchanged for any other string |
| Cube.RubiksCube.Perform | cube.js:188-210 | the method `moveMap` stores for a move performs its face move once, three times or twice |
| Cube.RubiksCube.Clone | cube.js:222-226 | `clone` returns a new cube with a new array holding the same stickers |
| Cube.RubiksCube.IsSolved | cube.js:229-239 | `isSolved` returns true exactly when, on every face, all nine stickers equal the face's first sticker |
| Renderer.JsRem | renderer.js:256 | JavaScript's `%`: the result keeps the sign of the dividend, stays below the divisor in size, and differs from the dividend by a multiple of the divisor |
| Renderer.IsPartOfAnimatedFace | renderer.js:238-284 | the stickers each face letter carries along, as the switch lists them; none for another character or no animation |
| Renderer.TurningFaceSelected | renderer.js:238-284 | every index of the turning face is selected (U→0, R→1, F→2, D→3, L→4, B→5) |
| Renderer.OppositeFaceNotSelected | renderer.js:238-284 | no index of the face opposite the turning face is selected |
| Renderer.OtherLettersSelectNothing | renderer.js:282-283 | a character other than U, D, R, L, F, B selects nothing, and no animation selects nothing |
| Renderer.AdjacentFaceSelectsLine | renderer.js:240-281 | on each of the four faces next to the turning face exactly one row or one column of three is selected |
| Renderer.UpLines | renderer.js:240-245 | `U` selects the top row of faces 1, 2, 4 and 5 |
| Renderer.DownLines | renderer.js:247-252 | `D` selects the bottom row of faces 1, 2, 4 and 5 |
| Renderer.RightLines | renderer.js:254-259 | `R` selects the right column of faces 0, 2, 3 and the left column of face 5 |
| Renderer.LeftLines | renderer.js:261-266 | `L` selects the left column of faces 0, 2, 3 and the right column of face 5 |
| Renderer.FrontLines | renderer.js:268-273 | `F` selects the bottom row of face 0, the left column of face 1, the top row of face 3 and the right column of face 4 |
| Renderer.BackLines | renderer.js:275-280 | `B` selects the top row of face 0, the right column of face 1, the bottom row of face 3 and the left column of face 4 |
| Renderer.TurningAndOppositeFaces | renderer.js:238-284 | the turning face contributes all nine indices and the opposite face none |
| Renderer.SelectedOnFace | renderer.js:238-284 | each face contributes 9, 3 or 0 selected indices, as it is the turning face, a neighbour or the opposite face |
| Renderer.TwentyOneStickersTurn | renderer.js:238-284 | each face letter selects 21 (face, index) pairs in total |
| Renderer.StickerIndex | renderer.js:170-225 | the index of the sticker at (`row`, `col`): defined exactly for faces 0..5, and then in 0..8 |
| Renderer.FaceStickerIndices | renderer.js:163-233 | the nested loops push nine indices in row-major order; for faces 0..5 they are 0..8 each once, otherwise all are undefined |
| Renderer.NumberingIsPermutation | renderer.js:178-224 | faces 0..4 number their stickers 0..8 in order; face 5 takes the rows bottom to top; each is a permutation of 0..8 |
| Renderer.FrontNumbering | renderer.js:171-215 | faces 0..4 number their stickers 0..8 row by row |
| Renderer.BackNumbering | renderer.js:216-225 | face 5 numbers its rows bottom to top, a permutation of 0..8 |
| Renderer.BackOrderIsPermutation | renderer.js:224 | the back face's order is the three rows of 0..8 reversed, and holds each of 0..8 once |
| Renderer.AnimationOf | renderer.js:40-43 | the animation of a move: angle 180, -90 or 90; a face exactly when the move is not empty |
| Renderer.AnimationOfToken | renderer.js:40-43 | for each of the eighteen keys the animated face is its letter and the angle is 90, -90 or 180: the amount the move turns, up to whole turns |
| Renderer.AnimatedFaceIsTurnedFace | renderer.js:40-43 | the animation of any key selects every sticker of the face the key turns |
| Renderer.CubeRenderer.constructor | renderer.js:24-26 | a new renderer is not animating, has an empty queue and no current animation |
| Renderer.CubeRenderer.AnimateMove | renderer.js:36-73 | `animateMove` executes the move once on the cube and ends with no current animation |
| Renderer.CubeRenderer.ProcessAnimationQueue | renderer.js:75-84 | does nothing when already animating or when the queue is empty; otherwise executes every queued move once, front first, and ends with an empty queue and `isAnimating` false |

## Left out

- `3d-math.js` is not part of this model. It is floating-point quaternion and matrix code, and neither core file uses it.
- Drawing and geometry in `renderer.js` are not modelled: `project`, `drawSticker`, `render`, `applyAnimationRotation` and the sticker corner points of `getFaceStickers`. They are canvas output and floating-point trigonometry.
- Renderer.CubeRenderer.AnimateMove: the intermediate frames are collapsed into their final state. This covers `Date.now`, `requestAnimationFrame`, the cubic ease and the Promise. The model records only the last frame, `AnimationOf(move)`, and then the single `executeMove`.
- Renderer.CubeRenderer.ProcessAnimationQueue: each `await` is modelled as the synchronous completion of `animateMove`. Moves appended to the queue by other code while an animation is in flight are not modelled.
- Mouse handlers, buttons and DOM set-up in `renderer.js` are not modelled; they are user interface.
- Notation.RandomMove: `Math.random` becomes the parameter `pick`, the index into the move list.
- The scramble length is not modelled.
- Cube.RubiksCube.ExecuteMove: JavaScript property lookup is modelled as a lookup among the eighteen keys. An inherited property name such as `toString` would be found on `moveMap` and called, and it changes no sticker. Any such string is therefore modelled as "no change". The model does not capture that such a call may throw, as `__proto__` does.
- Colour names are not modelled; the comments in `cube.js` and `renderer.js` disagree on them. Sticker values are opaque bytes.
- No link is proved between the stickers `renderer.js` animates and the stickers `cube.js` moves, because the two disagree as written. For example, `U` animates face-5 indices 0..2 while `U()` rewrites 51..53, which are face-5 indices 6..8.
- Renderer.FaceStickerIndices: only the `index` of each pushed entry is modelled, not its `points`.

## Findings

| source | as written | input that shows it | evidently intended | confidence | as-written member | corrected member |
|---|---|---|---|---|---|---|
| cube.js:164 | `B()` writes `state[35] = state[36]` and `state[33] = state[42]`. On face L, 36 is the up-back-left corner and 42 the down-back-left one; on face D, 33 is the down-back-left corner and 35 the down-back-right one. The Down←Left triple therefore crosses over. The side stickers form the 8-cycle 0→11→35→36→2→17→33→42 and the 4-cycle 1→14→34→39, and four B moves swap (0 2)(11 17)(33 35)(36 42) instead of restoring the state | `reset`, then `U`, `B`, `B'`: `U` leaves value 5 at position 11, and after `B` then `B'` position 11 holds value 1, so `B'` does not undo `B` | B has order four, so B' undoes B. The repair used here is at cube.js:164: 35 reads 42 and 33 reads 36, which carries each corner sticker along with its corner piece, as a quarter turn of the back face does. Reordering the last triple at cube.js:167 (36 reads 0, 42 reads 2) also gives order four, but moves the sticker at 0 to 36 on the same corner, twisting that corner in place instead of carrying it on | not executed | Stickers.BackCycles, Stickers.BackFourthPower, Stickers.BackPrimeDoesNotUndoBack, Stickers.BackPrimeAfterUpFails, Notation.BackPrimeFailsAfterUp | Stickers.CorrectedSrc, Stickers.CorrectedOrderFour, Stickers.CorrectedTurnOrderFour |

The class `Cube.RubiksCube` and the token semantics in `Notation` model `B()` exactly as written. The corrected table is stated and proved beside it, in `Stickers.CorrectedSrc` and `Stickers.CorrectedTurn`. `B` then `B'` gives back a state exactly when the four exchanged pairs (0, 2), (11, 17), (33, 35) and (36, 42) hold equal stickers (`Stickers.BackPrimeUndoesBackExactly`). In the reset state each pair shares a colour, so four B moves still leave a reset cube solved (`Stickers.BackFourthKeepsSolved`). F's layer contains none of the eight positions, so after `reset`, `F`, `B`, `B'` the cube is back where F left it (`Stickers.BackPrimeAfterFrontRestores`). U's layer does contain them: after `reset`, `U`, `B`, `B'` the state is not restored (`Notation.BackPrimeFailsAfterUp`).
