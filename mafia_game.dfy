/**
 * The Mafia role picker (`src/pages/games/MafiaGame.jsx`): four form fields
 * parsed with `parseInt`, the role counts clamped to the number of players,
 * the role list built and shuffled in place with Fisher–Yates, and the reveal
 * state machine that passes the device from player to player.
 * `Math.random` is an oracle `pick` with `pick(i) <= i`.
 */
module MafiaGame {
  import opened Wrappers
  import opened Text

  datatype Role = Innocent | Mafia | Sheriff | Doctor

  // ------------------------------------------------------------ parseInt

  predicate IsDigit(c: char) {
    '0' <= c <= '9'
  }

  /** Length of the run of decimal digits at the front of `s`. */
  function DigitRun(s: string): (k: nat)
    ensures k <= |s|
    ensures forall i :: 0 <= i < k ==> IsDigit(s[i])
    ensures k < |s| ==> !IsDigit(s[k])
  {
    if s != [] && IsDigit(s[0]) then 1 + DigitRun(s[1..]) else 0
  }

  /** The value of a string of decimal digits. */
  function DigitsValue(d: string): nat
    requires forall i :: 0 <= i < |d| ==> IsDigit(d[i])
  {
    if d == [] then 0
    else
      assert IsDigit(d[|d| - 1]);
      DigitsValue(d[..|d| - 1]) * 10 + (d[|d| - 1] as int - '0' as int)
  }

  /** `parseInt` after the leading whitespace: an optional sign, then the longest run of digits. */
  function ParseSigned(t: string): (r: Option<int>)
    ensures r.None? <==> var u := if |t| > 0 && (t[0] == '-' || t[0] == '+') then t[1..] else t;
                         u == [] || !IsDigit(u[0])
    ensures r.Some? && r.value < 0 ==> t[0] == '-'
  {
    var signed := |t| > 0 && (t[0] == '-' || t[0] == '+');
    var u := if signed then t[1..] else t;
    var k := DigitRun(u);
    var v: int := DigitsValue(u[..k]);
    if k == 0 then None
    else if signed && t[0] == '-' then Some(-v)
    else Some(v)
  }

  /**
   * `parseInt(s)` for decimal text: leading whitespace skipped, an optional
   * sign, then the longest run of digits; `None` (NaN) when there is none.
   */
  function ParseInt(s: string): (r: Option<int>)
    ensures (forall i :: 0 <= i < |s| ==> !IsDigit(s[i])) ==> r.None?
  {
    var t := TrimStart(s);
    assert forall i :: 0 <= i < |t| ==> t[i] == s[|s| - |t| + i];
    ParseSigned(t)
  }

  /** The decimal rendering of a natural number, as a number input holds it. */
  function Show(n: nat): (r: string)
    ensures |r| >= 1 && forall i :: 0 <= i < |r| ==> IsDigit(r[i])
  {
    var last := ((n % 10) + '0' as int) as char;
    if n < 10 then [last] else Show(n / 10) + [last]
  }

  lemma {:induction false} ShowValue(n: nat)
    ensures DigitsValue(Show(n)) == n
  {
    if n >= 10 {
      var r := Show(n);
      assert r[..|r| - 1] == Show(n / 10);
      ShowValue(n / 10);
    }
  }

  lemma {:induction false} DigitRunAll(d: string)
    requires forall i :: 0 <= i < |d| ==> IsDigit(d[i])
    ensures DigitRun(d) == |d|
  {
  }

  lemma TrimStartNoLead(s: string)
    requires s != [] && !IsWhitespace(s[0])
    ensures TrimStart(s) == s
  {
  }

  lemma ParseUnsigned(d: string)
    requires |d| >= 1 && forall i :: 0 <= i < |d| ==> IsDigit(d[i])
    ensures ParseInt(d) == Some(DigitsValue(d) as int)
  {
    DigitRunAll(d);
    assert d[..|d|] == d;
    TrimStartNoLead(d);
  }

  /** After a minus sign, the digit run is read and negated. */
  lemma SignedNegative(d: string)
    requires |d| >= 1 && forall i :: 0 <= i < |d| ==> IsDigit(d[i])
    ensures ParseSigned(['-'] + d) == Some(-(DigitsValue(d) as int))
  {
    DigitRunAll(d);
    assert d[..|d|] == d;
    var m := ['-'] + d;
    assert m[0] == '-' && m[1..] == d;
  }

  lemma ParseNegative(d: string)
    requires |d| >= 1 && forall i :: 0 <= i < |d| ==> IsDigit(d[i])
    ensures ParseInt(['-'] + d) == Some(-(DigitsValue(d) as int))
  {
    TrimStartNoLead(['-'] + d);
    SignedNegative(d);
  }

  /** Reading back what a number input shows gives the number: `parseInt(String(n)) == n`. */
  lemma ParseShowNatural(n: nat)
    ensures ParseInt(Show(n)) == Some(n)
  {
    ShowValue(n);
    ParseUnsigned(Show(n));
  }

  /** An empty field is NaN. */
  lemma EmptyIsNaN()
    ensures ParseInt("") == None
  {
  }

  // ------------------------------------------------------- role counts

  function Min(a: int, b: int): int {
    if a < b then a else b
  }

  /**
   * The adjustment of `startGame`: when the special roles outnumber the
   * players, mafia, then sheriffs, then doctors are cut down to what is left.
   */
  function Adjust(players: int, mafia: int, sheriff: int, doctor: int): (r: (int, int, int))
    ensures mafia + sheriff + doctor <= players ==> r == (mafia, sheriff, doctor)
    ensures r.0 <= mafia && r.1 <= sheriff && r.2 <= doctor
    ensures mafia + sheriff + doctor > players && players >= 0 && mafia >= 0 && sheriff >= 0 && doctor >= 0 ==>
              && r.0 >= 0 && r.1 >= 0 && r.2 >= 0
              && r.0 + r.1 + r.2 == players
              && (r.0 < mafia ==> r.1 == 0 && r.2 == 0)
              && (r.1 < sheriff ==> r.2 == 0)
  {
    if mafia + sheriff + doctor > players then
      var m := Min(mafia, players);
      var s := Min(sheriff, players - m);
      var d := Min(doctor, players - m - s);
      (m, s, d)
    else (mafia, sheriff, doctor)
  }

  /** With non-negative inputs the innocents, `players - mafia - sheriff - doctor` after adjusting, are never negative. */
  lemma InnocentsNonNegative(players: nat, mafia: nat, sheriff: nat, doctor: nat)
    ensures var (m, s, d) := Adjust(players, mafia, sheriff, doctor);
            players - m - s - d >= 0 && m >= 0 && s >= 0 && d >= 0
  {
  }

  /** `Array(k).fill(role)`. */
  function Fill(role: Role, k: nat): (r: seq<Role>)
    ensures |r| == k
  {
    if k == 0 then [] else [role] + Fill(role, k - 1)
  }

  lemma {:induction false} FillCounts(role: Role, k: nat, other: Role)
    ensures multiset(Fill(role, k))[role] == k
    ensures other != role ==> multiset(Fill(role, k))[other] == 0
  {
    if k > 0 {
      FillCounts(role, k - 1, other);
    }
  }

  /** How many of each role a finished list holds. */
  datatype Counts = Counts(innocent: int, mafia: int, sheriff: int, doctor: int)

  function Census(roles: seq<Role>): Counts {
    Counts(multiset(roles)[Innocent], multiset(roles)[Mafia], multiset(roles)[Sheriff], multiset(roles)[Doctor])
  }

  /** The adjusted counts, innocents first. */
  function Planned(players: int, mafia: int, sheriff: int, doctor: int): Counts {
    var (m, s, d) := Adjust(players, mafia, sheriff, doctor);
    Counts(players - m - s - d, m, s, d)
  }

  /** The four filled arrays, spread one after another, hold exactly the given numbers of each role. */
  lemma CensusOfFills(i: nat, m: nat, s: nat, d: nat)
    ensures var roles := Fill(Innocent, i) + Fill(Mafia, m) + Fill(Sheriff, s) + Fill(Doctor, d);
            |roles| == i + m + s + d && Census(roles) == Counts(i, m, s, d)
  {
    FillCounts(Innocent, i, Mafia);
    FillCounts(Innocent, i, Sheriff);
    FillCounts(Innocent, i, Doctor);
    FillCounts(Mafia, m, Innocent);
    FillCounts(Mafia, m, Sheriff);
    FillCounts(Mafia, m, Doctor);
    FillCounts(Sheriff, s, Innocent);
    FillCounts(Sheriff, s, Mafia);
    FillCounts(Sheriff, s, Doctor);
    FillCounts(Doctor, d, Innocent);
    FillCounts(Doctor, d, Mafia);
    FillCounts(Doctor, d, Sheriff);
  }

  /**
   * The role list before shuffling; `None` when one of the four `Array(k)`
   * calls gets a negative length and throws.
   */
  function BuildRoles(players: int, mafia: int, sheriff: int, doctor: int): (r: Option<seq<Role>>)
    ensures var c := Planned(players, mafia, sheriff, doctor);
            r.Some? <==> c.innocent >= 0 && c.mafia >= 0 && c.sheriff >= 0 && c.doctor >= 0
    ensures r.Some? ==> |r.value| == players && Census(r.value) == Planned(players, mafia, sheriff, doctor)
  {
    var c := Planned(players, mafia, sheriff, doctor);
    if c.innocent < 0 || c.mafia < 0 || c.sheriff < 0 || c.doctor < 0 then None
    else
      var roles := Fill(Innocent, c.innocent) + Fill(Mafia, c.mafia) + Fill(Sheriff, c.sheriff) + Fill(Doctor, c.doctor);
      CensusOfFills(c.innocent, c.mafia, c.sheriff, c.doctor);
      Some(roles)
  }

  /** Non-negative counts always build a list, one role per player. */
  lemma BuildsForNaturalCounts(players: nat, mafia: nat, sheriff: nat, doctor: nat)
    ensures BuildRoles(players, mafia, sheriff, doctor).Some?
  {
    InnocentsNonNegative(players, mafia, sheriff, doctor);
  }

  // ------------------------------------------------------------ shuffle

  /** A valid random oracle: the index drawn at step `i` lies in `0..i`. */
  ghost predicate ValidPick(pick: nat -> nat) {
    forall i: nat :: pick(i) <= i
  }

  function Swap(s: seq<Role>, i: nat, j: nat): (r: seq<Role>)
    requires i < |s| && j < |s|
    ensures |r| == |s| && multiset(r) == multiset(s)
  {
    s[i := s[j]][j := s[i]]
  }

  /**
   * The list at the head of the countdown loop with counter `i`: the swaps
   * for `|s| - 1` down to `i + 1` have been done.
   */
  function ShuffledDownTo(s: seq<Role>, pick: nat -> nat, i: nat): (r: seq<Role>)
    requires ValidPick(pick)
    decreases |s| - i
    ensures |r| == |s|
  {
    if i + 1 >= |s| then s
    else Swap(ShuffledDownTo(s, pick, i + 1), i + 1, pick(i + 1))
  }

  /** The shuffle only ever swaps, so the result is a permutation of the built list. */
  lemma {:induction false} ShufflePermutes(s: seq<Role>, pick: nat -> nat, i: nat)
    requires ValidPick(pick)
    decreases |s| - i
    ensures multiset(ShuffledDownTo(s, pick, i)) == multiset(s)
  {
    if i + 1 < |s| {
      ShufflePermutes(s, pick, i + 1);
    }
  }

  /** The in-place Fisher–Yates loop of `startGame`. */
  method Shuffle(a: array<Role>, pick: nat -> nat)
    requires ValidPick(pick)
    modifies a
    ensures a[..] == ShuffledDownTo(old(a[..]), pick, 0)
  {
    var i := a.Length - 1;
    while i > 0
      invariant -1 <= i < a.Length || (a.Length == 0 && i == -1)
      invariant a[..] == ShuffledDownTo(old(a[..]), pick, if i < 0 then 0 else i)
    {
      var j := pick(i);
      a[i], a[j] := a[j], a[i];
      i := i - 1;
    }
  }

  /** The spread of the four filled arrays into `roles`, then the shuffle of that array in place. */
  method ShuffledCopy(built: seq<Role>, pick: nat -> nat) returns (roles: seq<Role>)
    requires ValidPick(pick)
    ensures roles == ShuffledDownTo(built, pick, 0)
  {
    var a := new Role[|built|](i requires 0 <= i < |built| => built[i]);
    assert a[..] == built;
    Shuffle(a, pick);
    roles := a[..];
  }

  // ------------------------------------------------------- reveal steps

  /** `gameState`. `currentRole` is `None` for `''` and for reading past the end of `roles`. */
  datatype GameState = GameState(isGameStarted: bool, roles: seq<Role>, currentPlayer: int, totalPlayers: int,
                                 currentRole: Option<Role>, isGameFinished: bool, showRole: bool)

  const InitialGame := GameState(false, [], 0, 0, None, false, false)

  /** `roles[k]`, which is `undefined` out of range. */
  function RoleAt(roles: seq<Role>, k: int): (r: Option<Role>)
    ensures r.Some? <==> 0 <= k < |roles|
    ensures r.Some? ==> r.value == roles[k]
  {
    if 0 <= k < |roles| then Some(roles[k]) else None
  }

  /** A started game holds one role per player, and the player on screen is shown their own role. */
  predicate Consistent(g: GameState) {
    g.isGameStarted ==>
      && |g.roles| == g.totalPlayers
      && 1 <= g.currentPlayer <= (if g.totalPlayers < 1 then 1 else g.totalPlayers)
      && g.currentRole == RoleAt(g.roles, g.currentPlayer - 1)
  }

  /** The state `startGame` sets for a shuffled list. */
  function Started(roles: seq<Role>): (g: GameState)
    ensures Consistent(g)
    ensures g.currentPlayer == 1 && g.showRole && !g.isGameFinished
  {
    GameState(true, roles, 1, |roles|, RoleAt(roles, 0), false, true)
  }

  /** `displayNextRole`: the next player and their role, or the end of the game after the last one. */
  function NextRole(g: GameState): (r: GameState)
    ensures Consistent(g) ==> Consistent(r)
    ensures g.currentPlayer < g.totalPlayers ==>
              && r.currentPlayer == g.currentPlayer + 1
              && r.currentRole == RoleAt(g.roles, g.currentPlayer)
              && r.showRole && r.isGameFinished == g.isGameFinished
    ensures g.currentPlayer >= g.totalPlayers ==>
              && r.isGameFinished && r.currentPlayer == g.currentPlayer
              && r.currentRole == g.currentRole && r.showRole == g.showRole
    ensures r.roles == g.roles && r.totalPlayers == g.totalPlayers && r.isGameStarted == g.isGameStarted
  {
    if g.currentPlayer < g.totalPlayers then
      g.(currentPlayer := g.currentPlayer + 1, currentRole := RoleAt(g.roles, g.currentPlayer), showRole := true)
    else g.(isGameFinished := true)
  }

  /** `clearCurrentRole`: only the role is hidden. */
  function HideRole(g: GameState): (r: GameState)
    ensures Consistent(g) ==> Consistent(r)
    ensures !r.showRole
    ensures r.isGameStarted == g.isGameStarted && r.roles == g.roles && r.currentPlayer == g.currentPlayer
            && r.totalPlayers == g.totalPlayers && r.currentRole == g.currentRole
            && r.isGameFinished == g.isGameFinished
  {
    g.(showRole := false)
  }

  function Steps(g: GameState, k: nat): GameState {
    if k == 0 then g else NextRole(Steps(g, k - 1))
  }

  /**
   * Passing the device round: after `k` presses of "Next Player" the
   * `(k + 1)`-th player sees the `(k + 1)`-th role, and the press after the
   * last player ends the game.
   */
  lemma {:induction false} RevealOrder(roles: seq<Role>, k: nat)
    requires k < |roles|
    ensures Steps(Started(roles), k).currentPlayer == k + 1
    ensures Steps(Started(roles), k).currentRole == Some(roles[k])
    ensures !Steps(Started(roles), k).isGameFinished
    ensures k == |roles| - 1 ==> Steps(Started(roles), k + 1).isGameFinished
    ensures Steps(Started(roles), k).roles == roles && Steps(Started(roles), k).totalPlayers == |roles|
  {
    if k > 0 {
      RevealOrder(roles, k - 1);
    }
  }

  /** The form's four fields, by input id. */
  datatype FormField = Players | MafiaCount | SheriffCount | DoctorCount
  datatype GameForm = GameForm(players: string, mafia: string, sheriff: string, doctor: string)

  const EmptyForm := GameForm("", "", "", "")

  /** `handleInputChange`: only the field with the input's id changes. */
  function WithInput(f: GameForm, id: FormField, value: string): (r: GameForm)
    ensures r.players == (if id == Players then value else f.players)
    ensures r.mafia == (if id == MafiaCount then value else f.mafia)
    ensures r.sheriff == (if id == SheriffCount then value else f.sheriff)
    ensures r.doctor == (if id == DoctorCount then value else f.doctor)
  {
    match id
    case Players => f.(players := value)
    case MafiaCount => f.(mafia := value)
    case SheriffCount => f.(sheriff := value)
    case DoctorCount => f.(doctor := value)
  }

  /** The four counts parsed from the form, or `None` when one of them is NaN. */
  function ParsedCounts(f: GameForm): Option<(int, int, int, int)> {
    var n, m, s, d := ParseInt(f.players), ParseInt(f.mafia), ParseInt(f.sheriff), ParseInt(f.doctor);
    if n.Some? && m.Some? && s.Some? && d.Some? then Some((n.value, m.value, s.value, d.value)) else None
  }

  /**
   * The state `startGame` moves to, or `None` when it throws: a NaN count,
   * or a negative length for one of the role arrays.
   */
  function StartResult(f: GameForm, pick: nat -> nat): Option<GameState>
    requires ValidPick(pick)
  {
    match ParsedCounts(f)
    case None => None
    case Some((n, m, s, d)) =>
      match BuildRoles(n, m, s, d)
      case None => None
      case Some(built) => Some(Started(ShuffledDownTo(built, pick, 0)))
  }

  /**
   * A started game has one role per player, in exactly the adjusted
   * numbers, and shows the first player their role.
   */
  lemma StartedGameCounts(f: GameForm, pick: nat -> nat)
    requires ValidPick(pick) && StartResult(f, pick).Some?
    ensures var (n, m, s, d) := ParsedCounts(f).value;
            var g := StartResult(f, pick).value;
            && g.totalPlayers == n && |g.roles| == n
            && Census(g.roles) == Planned(n, m, s, d)
            && Consistent(g) && g.currentPlayer == 1 && g.showRole
  {
    var (n, m, s, d) := ParsedCounts(f).value;
    var built := BuildRoles(n, m, s, d).value;
    ShufflePermutes(built, pick, 0);
  }

  /** A NaN count makes `startGame` throw. */
  lemma NaNDoesNotStart(f: GameForm, pick: nat -> nat)
    requires ValidPick(pick)
    requires ParseInt(f.players).None? || ParseInt(f.mafia).None? || ParseInt(f.sheriff).None? || ParseInt(f.doctor).None?
    ensures StartResult(f, pick).None?
  {
  }

  /** The component: the game state and the form, each replaced as a whole by the handlers. */
  class RolePicker {
    var gameState: GameState
    var formData: GameForm

    constructor ()
      ensures gameState == InitialGame && formData == EmptyForm
    {
      gameState := InitialGame;
      formData := EmptyForm;
    }

    method HandleInputChange(id: FormField, value: string)
      modifies this
      ensures formData == WithInput(old(formData), id, value)
      ensures gameState == old(gameState)
    {
      formData := WithInput(formData, id, value);
    }

    /**
     * `startGame`: parse, adjust, build, shuffle in place and start. A NaN
     * or a negative count makes `Array` throw, and nothing changes.
     */
    method StartGame(pick: nat -> nat) returns (started: bool)
      requires ValidPick(pick)
      modifies this
      ensures formData == old(formData)
      ensures started <==> StartResult(old(formData), pick).Some?
      ensures started ==> gameState == StartResult(old(formData), pick).value
      ensures !started ==> gameState == old(gameState)
    {
      var counts := ParsedCounts(formData);
      if counts.None? {
        return false;
      }
      var (n, m, s, d) := counts.value;
      var built := BuildRoles(n, m, s, d);
      if built.None? {
        return false;
      }
      var roles := ShuffledCopy(built.value, pick);
      gameState := Started(roles);
      started := true;
    }

    method DisplayNextRole()
      modifies this
      ensures gameState == NextRole(old(gameState)) && formData == old(formData)
    {
      gameState := NextRole(gameState);
    }

    method ClearCurrentRole()
      modifies this
      ensures gameState == HideRole(old(gameState)) && formData == old(formData)
    {
      gameState := HideRole(gameState);
    }

    /** `restartGame`: the initial state and an empty form. */
    method RestartGame()
      modifies this
      ensures gameState == InitialGame && formData == EmptyForm
    {
      gameState := InitialGame;
      formData := EmptyForm;
    }
  }
}
