/** The deterministic rules of the mini-games in database.py: the slot
    machine payout, the guess-the-number reward table, the divorce split of
    the shared money pool, the tic-tac-toe win test and the millionaire
    prize ladder. Random draws and the players' chat replies are
    parameters. */
module Games {
  import opened Common
  import Storage

  // ---------------------------------------------------------------------
  // Slots

  /** 🍒 🍋 🍊 🍉 🍇 ⭐ 7️⃣ 🔔 💎 */
  datatype Symbol = Cherry | Lemon | Orange | Watermelon | Grapes | Star | Seven | Bell | Diamond

  predicate IsFruit(s: Symbol)
  {
    s.Cherry? || s.Lemon? || s.Orange? || s.Watermelon? || s.Grapes?
  }

  /** Three fruit symbols, in any order. */
  predicate AllFruit(a: Symbol, b: Symbol, c: Symbol)
  {
    IsFruit(a) && IsFruit(b) && IsFruit(c)
  }

  const MinBet := 10

  /** The factor of three equal symbols. */
  function TripleFactor(s: Symbol): nat
  {
    if s == Seven then 100 else if s == Diamond then 50 else if s == Star then 30 else 10
  }

  /** The payout factor for one spin: one of the seven values of the table,
      and 10 or more exactly for three equal symbols. */
  function Multiplier(a: Symbol, b: Symbol, c: Symbol): (r: nat)
    ensures r in {0, 3, 5, 10, 30, 50, 100}
    ensures r >= 10 <==> a == b && b == c
  {
    if a == b && b == c then TripleFactor(a)
    else if a == b || b == c || a == c then 3
    else if AllFruit(a, b, c) then 5
    else 0
  }

  /** Swapping the first two reels keeps the factor. */
  lemma {:induction false} MultiplierSwapFirst(a: Symbol, b: Symbol, c: Symbol)
    ensures Multiplier(a, b, c) == Multiplier(b, a, c)
  {
    assert AllFruit(a, b, c) == AllFruit(b, a, c);
  }

  /** Swapping the last two reels keeps the factor. */
  lemma {:induction false} MultiplierSwapLast(a: Symbol, b: Symbol, c: Symbol)
    ensures Multiplier(a, b, c) == Multiplier(a, c, b)
  {
    assert AllFruit(a, b, c) == AllFruit(a, c, b);
  }

  /** A spin pays nothing exactly when the three symbols differ and are not
      all fruit. */
  lemma {:induction false} SlotsLoseIff(a: Symbol, b: Symbol, c: Symbol)
    ensures Multiplier(a, b, c) == 0 <==> a != b && b != c && a != c && !AllFruit(a, b, c)
  {
  }

  /** Net change of the balance: the bet times the factor minus the bet, or
      the lost bet when the factor is 0. */
  function Winnings(bet: int, multiplier: nat): (r: int)
    ensures bet > 0 ==> (r > 0 <==> multiplier > 1)
    ensures bet > 0 ==> (r == -bet <==> multiplier == 0)
  {
    if multiplier > 0 then bet * multiplier - bet else -bet
  }

  datatype SlotsError = BetTooLow | InsufficientBalance

  /** The new balance after one spin, or why the spin is refused. */
  function Spin(balance: int, bet: int, a: Symbol, b: Symbol, c: Symbol): (r: Result<int, SlotsError>)
    ensures r == Err(BetTooLow) <==> bet < MinBet
    ensures r == Err(InsufficientBalance) <==> bet >= MinBet && balance < bet
    ensures r.Ok? ==> r.value >= 0
    ensures r.Ok? ==> (r.value > balance <==> Multiplier(a, b, c) > 1)
    ensures r.Ok? ==> (r.value == balance - bet <==> Multiplier(a, b, c) == 0)
  {
    if bet < MinBet then Err(BetTooLow)
    else if balance < bet then Err(InsufficientBalance)
    else
      var m := Multiplier(a, b, c);
      Ok(balance + Winnings(bet, m))
  }

  /** Three sevens turn a bet into a hundred times the bet. */
  lemma {:induction false} JackpotPays(balance: int, bet: int)
    requires MinBet <= bet <= balance
    ensures Spin(balance, bet, Seven, Seven, Seven) == Ok(balance + 99 * bet)
  {
  }

  // ---------------------------------------------------------------------
  // Guess the number

  const GuessAttempts := 6

  /** The reward for guessing on a given attempt. */
  function GuessReward(attempt: int): (r: nat)
    requires 1 <= attempt <= GuessAttempts
    ensures 100 <= r <= 500
  {
    map[1 := 500, 2 := 400, 3 := 300, 4 := 200, 5 := 150, 6 := 100][attempt]
  }

  /** An earlier guess is always worth more. */
  lemma {:induction false} GuessRewardDecreasing(a: int, b: int)
    requires 1 <= a < b <= GuessAttempts
    ensures GuessReward(a) > GuessReward(b)
  {
    assert a in {1, 2, 3, 4, 5};
  }

  // ---------------------------------------------------------------------
  // Divorce

  /** Each partner's balance after the pool is split: `pool // 2` to each. */
  function DivorceSplit(economy: map<string, int>, user: string, partner: string, pool: int): (r: map<string, int>)
    ensures r.Keys == economy.Keys + {user, partner}
  {
    var half := pool / 2;
    var e := economy[user := Storage.Get(economy, user, 0) + half];
    e[partner := Storage.Get(e, partner, 0) + half]
  }

  /** Each partner gains half the pool, rounded down, nobody else changes,
      and for an odd pool one credit is not paid out. */
  lemma {:induction false} DivorceSplitHalves(economy: map<string, int>, user: string, partner: string, pool: int)
    requires user != partner
    ensures var e := DivorceSplit(economy, user, partner, pool);
      e[user] == Storage.Get(economy, user, 0) + pool / 2 &&
      e[partner] == Storage.Get(economy, partner, 0) + pool / 2 &&
      (forall k :: k in economy && k != user && k != partner ==> e[k] == economy[k])
    ensures var e := DivorceSplit(economy, user, partner, pool);
      (e[user] - Storage.Get(economy, user, 0)) + (e[partner] - Storage.Get(economy, partner, 0)) == pool - pool % 2
  {
  }

  // ---------------------------------------------------------------------
  // Tic-tac-toe

  /** A cell shows its number 1..9 until a player marks it. */
  datatype Cell = Free(n: nat) | Cross | Nought

  type Board = seq<seq<Cell>>

  predicate Square(b: Board)
  {
    |b| == 3 && forall r :: 0 <= r < 3 ==> |b[r]| == 3
  }

  /** Every unmarked cell still shows its own number. */
  predicate WellFormed(b: Board)
  {
    Square(b) && forall r, c :: 0 <= r < 3 && 0 <= c < 3 && b[r][c].Free? ==> b[r][c].n == 3 * r + c + 1
  }

  const StartBoard: Board := [[Free(1), Free(2), Free(3)], [Free(4), Free(5), Free(6)], [Free(7), Free(8), Free(9)]]

  predicate Same(x: Cell, y: Cell, z: Cell)
  {
    x == y && y == z
  }

  /** Row i or column i has three equal cells. */
  predicate LineAt(b: Board, i: int)
    requires Square(b) && 0 <= i < 3
  {
    Same(b[i][0], b[i][1], b[i][2]) || Same(b[0][i], b[1][i], b[2][i])
  }

  predicate Diagonal(b: Board)
    requires Square(b)
  {
    Same(b[0][0], b[1][1], b[2][2]) || Same(b[0][2], b[1][1], b[2][0])
  }

  /** Some row, column or diagonal of three equal cells. */
  predicate HasWin(b: Board)
    requires Square(b)
  {
    (exists i :: 0 <= i < 3 && LineAt(b, i)) || Diagonal(b)
  }

  /** The win test after a move: the loop over rows and columns, then the
      two diagonals. */
  method CheckWin(b: Board) returns (win: bool)
    requires Square(b)
    ensures win == HasWin(b)
  {
    win := false;
    var i := 0;
    while i < 3
      invariant 0 <= i <= 3
      invariant win <==> exists j :: 0 <= j < i && LineAt(b, j)
    {
      if LineAt(b, i) {
        win := true;
      }
      i := i + 1;
    }
    if Diagonal(b) {
      win := true;
    }
  }

  /** On a well-formed board equal cells mean equal marks: a line wins
      exactly when one player holds all three of its cells. */
  lemma {:induction false} SameMeansMarked(b: Board, r1: int, c1: int, r2: int, c2: int, r3: int, c3: int)
    requires WellFormed(b)
    requires 0 <= r1 < 3 && 0 <= c1 < 3 && 0 <= r2 < 3 && 0 <= c2 < 3 && 0 <= r3 < 3 && 0 <= c3 < 3
    requires (r1, c1) != (r2, c2)
    ensures Same(b[r1][c1], b[r2][c2], b[r3][c3]) <==>
      (b[r1][c1] == Cross && b[r2][c2] == Cross && b[r3][c3] == Cross) ||
      (b[r1][c1] == Nought && b[r2][c2] == Nought && b[r3][c3] == Nought)
  {
  }

  /** Player `x` holds all three cells of row i or of column i. */
  predicate HoldsLineAt(b: Board, x: Cell, i: int)
    requires Square(b) && 0 <= i < 3
  {
    (b[i][0] == x && b[i][1] == x && b[i][2] == x) || (b[0][i] == x && b[1][i] == x && b[2][i] == x)
  }

  /** Player `x` holds a row, a column or a diagonal. */
  predicate HoldsLine(b: Board, x: Cell)
    requires Square(b)
  {
    (exists i :: 0 <= i < 3 && HoldsLineAt(b, x, i)) ||
    (b[0][0] == x && b[1][1] == x && b[2][2] == x) || (b[0][2] == x && b[1][1] == x && b[2][0] == x)
  }

  /** Because free cells keep distinct numbers, the equality test finds a
      winner exactly when one player holds a whole line. */
  lemma {:induction false} WinIffHeldLine(b: Board)
    requires WellFormed(b)
    ensures HasWin(b) <==> HoldsLine(b, Cross) || HoldsLine(b, Nought)
  {
    forall i | 0 <= i < 3
      ensures LineAt(b, i) <==> HoldsLineAt(b, Cross, i) || HoldsLineAt(b, Nought, i)
    {
      SameMeansMarked(b, i, 0, i, 1, i, 2);
      SameMeansMarked(b, 0, i, 1, i, 2, i);
    }
    SameMeansMarked(b, 0, 0, 1, 1, 2, 2);
    SameMeansMarked(b, 0, 2, 1, 1, 2, 0);
  }

  /** The starting board has no winner. */
  lemma {:induction false} StartBoardNoWin()
    ensures WellFormed(StartBoard) && !HasWin(StartBoard)
  {
    assert !LineAt(StartBoard, 0) && !LineAt(StartBoard, 1) && !LineAt(StartBoard, 2);
  }

  /** A move on square `pos` (1..9): an occupied square leaves the board as
      it is (the move is ignored). */
  function Place(b: Board, pos: int, mark: Cell): (r: Board)
    requires WellFormed(b) && 1 <= pos <= 9 && !mark.Free?
    ensures WellFormed(r)
    ensures var row, col := (pos - 1) / 3, (pos - 1) % 3;
      (b[row][col].Free? ==> r[row][col] == mark) && (!b[row][col].Free? ==> r == b) &&
      forall i, j :: 0 <= i < 3 && 0 <= j < 3 && (i, j) != (row, col) ==> r[i][j] == b[i][j]
  {
    var row, col := (pos - 1) / 3, (pos - 1) % 3;
    if !b[row][col].Free? then b
    else b[row := b[row][col := mark]]
  }

  // ---------------------------------------------------------------------
  // Millionaire

  /** The prize of each of the five questions. */
  const Prizes: seq<nat> := [100, 200, 300, 500, 1000]

  /** The player's reaction to a question; no reply in time is TimedOut. */
  datatype Reply = Correct | Wrong | Quit | TimedOut

  /** The guaranteed sum when the game ends at question `i` (1-based). */
  function Guaranteed(i: int): (g: nat)
    ensures i >= 4 ==> g == 300
    ensures 2 <= i < 4 ==> g == 200
    ensures i < 2 ==> g == 0
  {
    if i >= 4 then 300 else if i >= 2 then 200 else 0
  }

  /** The reply to question k (0-based); replies that never came are timeouts. */
  function ReplyAt(replies: seq<Reply>, k: nat): Reply
  {
    if k < |replies| then replies[k] else TimedOut
  }

  /** The sum of the prizes from question k on. */
  function PrizesFrom(k: nat): nat
    decreases |Prizes| - k
  {
    if k >= |Prizes| then 0 else Prizes[k] + PrizesFrom(k + 1)
  }

  /** The total prize of a game played from question k (0-based) with
      `acc` won so far. Quitting adds the guaranteed sum to what was won; a
      wrong answer or a timeout replaces it by the guaranteed sum. No game
      pays less than nothing or more than what is won plus the prizes left. */
  function Outcome(replies: seq<Reply>, k: nat, acc: int): (r: int)
    ensures acc >= 0 ==> 0 <= r <= acc + PrizesFrom(k)
    decreases |Prizes| - k
  {
    if k >= |Prizes| then acc
    else
      assert PrizesFrom(k) == Prizes[k] + PrizesFrom(k + 1);
      assert Prizes[k] >= Guaranteed(k + 1);
      match ReplyAt(replies, k)
      case Correct => Outcome(replies, k + 1, acc + Prizes[k])
      case Quit => acc + Guaranteed(k + 1)
      case Wrong => Guaranteed(k + 1)
      case TimedOut => Guaranteed(k + 1)
  }

  /** The game loop. */
  method Millionaire(replies: seq<Reply>) returns (total: int)
    ensures total == Outcome(replies, 0, 0)
  {
    ghost var goal := Outcome(replies, 0, 0);
    total := 0;
    var i := 1;
    while i <= |Prizes|
      invariant 1 <= i <= |Prizes| + 1
      invariant Outcome(replies, i - 1, total) == goal
    {
      var answer := ReplyAt(replies, i - 1);
      if answer == Quit {
        total := total + Guaranteed(i);
        return;
      }
      if answer == Correct {
        total := total + Prizes[i - 1];
      } else {
        total := Guaranteed(i);
        return;
      }
      i := i + 1;
    }
  }

  /** Five correct answers win 2100; the ceiling of every game. */
  lemma {:induction false} MillionaireRange(replies: seq<Reply>)
    ensures 0 <= Outcome(replies, 0, 0) <= 2100
    ensures Outcome([Correct, Correct, Correct, Correct, Correct], 0, 0) == 2100
  {
    assert PrizesFrom(0) == 2100 by {
      assert PrizesFrom(5) == 0;
      assert PrizesFrom(4) == 1000;
      assert PrizesFrom(3) == 1500;
      assert PrizesFrom(2) == 1800;
      assert PrizesFrom(1) == 2000;
    }
  }

  /** After three correct answers, quitting at question four pays 600 + 300
      while a wrong answer there pays only 300. */
  lemma {:induction false} QuitAddsGuarantee(rest: seq<Reply>)
    ensures Outcome([Correct, Correct, Correct, Quit] + rest, 0, 0) == 900
    ensures Outcome([Correct, Correct, Correct, Wrong] + rest, 0, 0) == 300
  {
    var q := [Correct, Correct, Correct, Quit] + rest;
    var w := [Correct, Correct, Correct, Wrong] + rest;
    assert q[0] == Correct && q[1] == Correct && q[2] == Correct && q[3] == Quit;
    assert w[0] == Correct && w[1] == Correct && w[2] == Correct && w[3] == Wrong;
  }
}
