/** The interactive replay of one game: a cursor over the plies of the game,
    moved by single keystrokes, with one label drawn per position. */
module Player {
  import opened Wrappers
  import Text

  /** What a keystroke asks of the replay loop. */
  datatype Command = Quit | Advance | Retreat | Ignore

  /** `q`, `Q` and Ctrl-C quit; `n`, `N` and space advance; `b`, `B` retreat. */
  function Classify(key: char): (command: Command)
    ensures command == Quit <==> key in ['q', 'Q', '\U{3}']
    ensures command == Advance <==> key in ['n', 'N', ' ']
    ensures command == Retreat <==> key in ['b', 'B']
  {
    if key == 'q' || key == 'Q' || key == '\U{3}' then Quit
    else if key == 'n' || key == 'N' || key == ' ' then Advance
    else if key == 'b' || key == 'B' then Retreat
    else Ignore
  }

  /** The effect of one keystroke on the cursor: stop the loop, leave the
      cursor (and the screen) alone, or move the cursor and redraw. */
  datatype Reaction = Stop | Stay | MoveTo(position: nat)

  function React(total: nat, current: nat, key: char): (r: Reaction)
    requires current <= total
    ensures r.Stop? <==> Classify(key) == Quit
    ensures r.MoveTo? ==> r.position <= total && r.position != current
    ensures Classify(key) == Advance ==>
              if current < total then r == MoveTo(current + 1) else r == Stay
    ensures Classify(key) == Retreat ==>
              if current > 0 then r == MoveTo(current - 1) else r == Stay
    ensures Classify(key) == Ignore ==> r == Stay
  {
    match Classify(key)
    case Quit => Stop
    case Advance => if current < total then MoveTo(current + 1) else Stay
    case Retreat => if current > 0 then MoveTo(current - 1) else Stay
    case Ignore => Stay
  }

  const StartLabel := "  Starting position"

  /** The full-move number of ply p (p >= 1): plies 1 and 2 are move 1. */
  function MoveNumber(ply: nat): nat {
    (ply + 1) / 2
  }

  /** Odd plies are White's moves. */
  predicate IsWhitePly(ply: nat) {
    ply % 2 == 1
  }

  /** The `[ply/total]` counter that ends every label after the start. */
  function Counter(ply: nat, total: nat): string {
    " [" + Text.ShowNat(ply) + "/" + Text.ShowNat(total) + "]"
  }

  /** The move number, the side's separator and the move in SAN. */
  function Heading(moves: seq<string>, ply: nat): string
    requires 1 <= ply <= |moves|
  {
    " " + Text.ShowNat(MoveNumber(ply)) + (if IsWhitePly(ply) then ". " else "... ") + moves[ply - 1]
  }

  /** The text drawn for the position after `ply` plies (after the carriage return). */
  function Label(moves: seq<string>, ply: nat): (drawn: string)
    requires ply <= |moves|
    ensures ply == 0 ==> drawn == StartLabel
    ensures ply >= 1 ==> |drawn| >= 1 && drawn[|drawn| - 1] == ']'
  {
    if ply == 0 then StartLabel else Heading(moves, ply) + Counter(ply, |moves|)
  }

  /** A white ply opens a new full move and the black ply after it keeps that
      number: ply 2n-1 is "n." and ply 2n is "n...". */
  lemma MoveNumbering(ply: nat)
    requires ply >= 1
    ensures IsWhitePly(ply) ==> 2 * MoveNumber(ply) - 1 == ply
    ensures !IsWhitePly(ply) ==> 2 * MoveNumber(ply) == ply
    ensures MoveNumber(ply + 1) == if IsWhitePly(ply) then MoveNumber(ply) else MoveNumber(ply) + 1
  {
  }

  /** In x + "[" + a, the bracket stands just before the characters of a. */
  lemma BracketThenTail(x: string, a: string)
    ensures var s := x + "[" + a;
            s[|x|] == '[' && forall k :: |x| < k < |s| ==> s[k] == a[k - |x| - 1]
  {
  }

  /** Two strings that end in "[" followed by digits end in the same digits. */
  lemma DigitTailsEqual(x: string, a: string, y: string, b: string)
    requires Text.AllDigits(a) && Text.AllDigits(b)
    requires x + "[" + a == y + "[" + b
    ensures a == b
  {
    BracketThenTail(x, a);
    BracketThenTail(y, b);
    if |x| != |y| {
      assert false;
    }
    assert a == (x + "[" + a)[|x| + 1..];
  }

  lemma DropSuffix(u: string, v: string, t: string)
    requires u + t == v + t
    ensures u == v
  {
    assert u == (u + t)[..|u|];
    assert v == (v + t)[..|v|];
  }

  /** A label after the start, split at the bracket of its counter. */
  lemma LabelParts(moves: seq<string>, ply: nat)
    requires 1 <= ply <= |moves|
    ensures Label(moves, ply)
            == (Heading(moves, ply) + " ") + "[" + Text.ShowNat(ply) + ("/" + Text.ShowNat(|moves|) + "]")
  {
    var h, a, t := Heading(moves, ply), Text.ShowNat(ply), "/" + Text.ShowNat(|moves|) + "]";
    assert Counter(ply, |moves|) == " [" + a + t;
    assert h + (" [" + a + t) == (h + " ") + "[" + a + t;
  }

  /** Each label names its position: different positions are drawn differently. */
  lemma LabelsIdentifyPositions(moves: seq<string>, i: nat, j: nat)
    requires i <= |moves| && j <= |moves|
    requires Label(moves, i) == Label(moves, j)
    ensures i == j
  {
    if i != 0 && j != 0 {
      var tail := "/" + Text.ShowNat(|moves|) + "]";
      LabelParts(moves, i);
      LabelParts(moves, j);
      DropSuffix((Heading(moves, i) + " ") + "[" + Text.ShowNat(i),
                 (Heading(moves, j) + " ") + "[" + Text.ShowNat(j), tail);
      DigitTailsEqual(Heading(moves, i) + " ", Text.ShowNat(i), Heading(moves, j) + " ", Text.ShowNat(j));
      Text.ShowNatInjective(i, j);
    } else if i != j {
      assert false;
    }
  }

  /** What a replay session produced: the final cursor, whether it ended on a
      quit key, the labels drawn in order, and how many keys it read. */
  datatype Session = Session(position: nat, quit: bool, shown: seq<string>, read: nat)

  /** The key loop, from its state after the first `read` keys: the cursor at
      `position` and the labels drawn so far in `shown`. */
  function Run(moves: seq<string>, keys: seq<char>, position: nat, shown: seq<string>, read: nat): (r: Session)
    requires position <= |moves| && read <= |keys|
    ensures r.position <= |moves|
    ensures read <= r.read <= |keys|
    ensures shown <= r.shown
    decreases |keys| - read
  {
    if read == |keys| then Session(position, false, shown, read)
    else
      match React(|moves|, position, keys[read])
      case Stop => Session(position, true, shown, read + 1)
      case Stay => Run(moves, keys, position, shown, read + 1)
      case MoveTo(next) => Run(moves, keys, next, shown + [Label(moves, next)], read + 1)
  }

  /** A whole replay: the starting position is drawn first, then the key loop runs. */
  function Replay(moves: seq<string>, keys: seq<char>): Session {
    Run(moves, keys, 0, [StartLabel], 0)
  }

  /** The loop reads keys up to and including the first quit key and no
      further; without a quit key it reads them all. */
  lemma {:induction false} RunStopsAtFirstQuit(moves: seq<string>, keys: seq<char>, position: nat,
                                               shown: seq<string>, read: nat)
    requires position <= |moves| && read <= |keys|
    ensures var r := Run(moves, keys, position, shown, read);
            (r.quit ==> r.read > read && Classify(keys[r.read - 1]) == Quit)
            && (!r.quit ==> r.read == |keys|)
            && (forall k :: read <= k < r.read - 1 ==> Classify(keys[k]) != Quit)
            && (!r.quit ==> forall k :: read <= k < |keys| ==> Classify(keys[k]) != Quit)
    decreases |keys| - read
  {
    if read < |keys| {
      match React(|moves|, position, keys[read])
      case Stop =>
      case Stay =>
        RunStopsAtFirstQuit(moves, keys, position, shown, read + 1);
      case MoveTo(next) =>
        RunStopsAtFirstQuit(moves, keys, next, shown + [Label(moves, next)], read + 1);
    }
  }

  /** Advancing from a position before the end and then retreating returns to
      it, having drawn the next position and then this one again. */
  lemma AdvanceThenRetreat(moves: seq<string>, keys: seq<char>, i: nat, shown: seq<string>, read: nat)
    requires i < |moves| && read + 2 <= |keys|
    requires Classify(keys[read]) == Advance && Classify(keys[read + 1]) == Retreat
    ensures Run(moves, keys, i, shown, read)
            == Run(moves, keys, i, shown + [Label(moves, i + 1), Label(moves, i)], read + 2)
  {
    assert shown + [Label(moves, i + 1)] + [Label(moves, i)] == shown + [Label(moves, i + 1), Label(moves, i)];
  }

  /** The labels of 1. e4 e5 2. Nf3: White's plies carry "n.", Black's "n...". */
  lemma OpeningLabels()
    ensures var moves := ["e4", "e5", "Nf3"];
            Label(moves, 1) == " 1. e4 [1/3]" && Label(moves, 2) == " 1... e5 [2/3]"
            && Label(moves, 3) == " 2. Nf3 [3/3]"
  {
    var moves := ["e4", "e5", "Nf3"];
    assert Text.ShowNat(1) == "1" && Text.ShowNat(2) == "2" && Text.ShowNat(3) == "3";
    assert Heading(moves, 1) == " 1. e4";
    assert Heading(moves, 2) == " 1... e5";
    assert Heading(moves, 3) == " 2. Nf3";
  }

  /** Replaying three plies with four advances, a retreat and a quit: the fourth
      advance is a no-op at the end and draws nothing. */
  lemma ThreePlyReplay(moves: seq<string>)
    requires |moves| == 3
    ensures Replay(moves, "nnnnbq")
            == Session(2, true, [StartLabel, Label(moves, 1), Label(moves, 2), Label(moves, 3), Label(moves, 2)], 6)
  {
  }

  /** The lines printed before the loop; each optional line only when its
      value is truthy. */
  function Banner(white: string, black: string, year: Option<int>,
                  event: Option<string>, result: Option<string>): (lines: seq<string>)
    ensures var y, e, r := (if IntTruthy(year) then 1 else 0), (if TextTruthy(event) then 1 else 0),
                           (if TextTruthy(result) then 1 else 0);
            |lines| == 7 + y + e + r
            && lines[..3] == ["", Text.Repeat('=', 60), "  " + white + " vs " + black]
            && (IntTruthy(year) ==> lines[3] == "  Year: " + Text.ShowInt(year.value))
            && (TextTruthy(event) ==> lines[3 + y] == "  Event: " + event.value)
            && (TextTruthy(result) ==> lines[3 + y + e] == "  Result: " + result.value)
            && lines[3 + y + e + r..] == [Text.Repeat('=', 60), "", "Controls: [n]ext  [b]ack  [q]uit", Text.Repeat('-', 40)]
  {
    ["", Text.Repeat('=', 60), "  " + white + " vs " + black]
    + (if IntTruthy(year) then ["  Year: " + Text.ShowInt(year.value)] else [])
    + (if TextTruthy(event) then ["  Event: " + event.value] else [])
    + (if TextTruthy(result) then ["  Result: " + result.value] else [])
    + [Text.Repeat('=', 60), "", "Controls: [n]ext  [b]ack  [q]uit", Text.Repeat('-', 40)]
  }

  /** The key loop of `play_game`, after the banner: draw the start, then react
      to keys until a quit key (or until the given keys run out). */
  method PlayGame(moves: seq<string>, keys: seq<char>) returns (session: Session)
    ensures session == Replay(moves, keys)
  {
    var current := 0;
    var total := |moves|;
    var shown := [Label(moves, current)];
    var k := 0;
    var quit := false;
    while k < |keys| && !quit
      invariant 0 <= k <= |keys|
      invariant current <= total
      invariant quit ==> Replay(moves, keys) == Session(current, true, shown, k)
      invariant !quit ==> Replay(moves, keys) == Run(moves, keys, current, shown, k)
    {
      var key := keys[k];
      k := k + 1;
      var command := Classify(key);
      if command == Quit {
        quit := true;
      } else if command == Advance {
        if current < total {
          current := current + 1;
          shown := shown + [Label(moves, current)];
        }
      } else if command == Retreat {
        if current > 0 {
          current := current - 1;
          shown := shown + [Label(moves, current)];
        }
      }
    }
    session := Session(current, quit, shown, k);
  }
}
