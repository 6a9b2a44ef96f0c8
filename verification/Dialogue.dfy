/**
 * A player's turn as a dialogue: one flat automaton over the stream of answers. It is the specification of the
 * nested retry loops in the game object.
 */
module Dialogue {
  import opened Cards
  import opened Rules

  /** The question that the next answer replies to. */
  datatype Menu =
    | PickAction
    | PickPlay
    | PickDiscard
    | PickHintee
    | PickHintType(target: nat)
    | PickColour(target: nat)
    | PickNumber(target: nat)

  /** Undefined stands for playing an EMPTY card, which has no stack to be compared with. */
  datatype Reply = Goto(menu: Menu) | Commit(action: Action) | Undefined

  function React(s: State, p: nat, menu: Menu, x: int): Reply
    requires Shape(s) && p < s.numPlayers
  {
    match menu
    case PickAction =>
      if x == 0 then Goto(PickPlay)
      else if x == 1 then Goto(PickDiscard)
      else if x == 2 && s.blue != 0 then Goto(PickHintee)
      else Goto(PickAction)
    case PickPlay =>
      if x == -1 then Goto(PickAction)
      else if 0 <= x < |s.hands[p]| then
        if s.hands[p][x].colour == EMPTY then Undefined else Commit(Play(x))
      else Goto(menu)
    case PickDiscard =>
      if x == -1 then Goto(PickAction)
      else if 0 <= x < |s.hands[p]| then Commit(Discard(x))
      else Goto(menu)
    case PickHintee =>
      if x == -1 then Goto(PickAction)
      else if 0 <= x < s.numPlayers && x != p then Goto(PickHintType(x))
      else Goto(menu)
    case PickHintType(t) =>
      if x == -1 then Goto(PickAction)
      else if x == 0 then Goto(PickColour(t))
      else if x == 1 then Goto(PickNumber(t))
      else Goto(menu)
    case PickColour(t) =>
      if x == -1 then Goto(PickAction)
      else if 0 <= x < NUM_COLOURS && t < s.numPlayers && HasColour(s.hands[t], ColourAt(x)) then
        Commit(HintColour(t, ColourAt(x)))
      else Goto(menu)
    case PickNumber(t) =>
      if x == -1 then Goto(PickAction)
      else if 1 <= x <= 5 && t < s.numPlayers && HasNumber(s.hands[t], x) then Commit(HintNumber(t, x))
      else Goto(menu)
  }

  /** Ended means that the stream ended before an action was complete. */
  datatype Outcome = Act(action: Action) | PlaysEmpty | Ended

  datatype Parsed = Parsed(outcome: Outcome, rest: seq<int>)

  /** The first complete action in a stream of answers, and the answers behind it. */
  function Parse(s: State, p: nat, menu: Menu, input: seq<int>): Parsed
    requires Shape(s) && p < s.numPlayers
    decreases |input|
  {
    if input == [] then Parsed(Ended, [])
    else
      match React(s, p, menu, input[0])
      case Goto(m) => Parse(s, p, m, input[1..])
      case Commit(a) => Parsed(Act(a), input[1..])
      case Undefined => Parsed(PlaysEmpty, input[1..])
  }

  // ----- What the parse means

  /** Menus that the automaton can be in, in a given state. */
  predicate Reachable(s: State, p: nat, menu: Menu) {
    match menu
    case PickAction | PickPlay | PickDiscard => true
    case PickHintee => s.blue != 0
    case PickHintType(t) => s.blue != 0 && t < s.numPlayers && t != p
    case PickColour(t) => s.blue != 0 && t < s.numPlayers && t != p
    case PickNumber(t) => s.blue != 0 && t < s.numPlayers && t != p
  }

  /** A committed action is legal. */
  lemma {:induction false} ParsedActionIsLegal(s: State, p: nat, menu: Menu, input: seq<int>)
    requires Shape(s) && p < s.numPlayers && Reachable(s, p, menu)
    ensures Parse(s, p, menu, input).outcome.Act? ==> Legal(s, p, Parse(s, p, menu, input).outcome.action)
    decreases |input|
  {
    if input != [] && React(s, p, menu, input[0]).Goto? {
      ParsedActionIsLegal(s, p, React(s, p, menu, input[0]).menu, input[1..]);
    }
  }

  /** The answers that enter an action without a mistake. */
  function Spelling(a: Action): seq<int> {
    match a
    case Play(k) => [0, k]
    case Discard(k) => [1, k]
    case HintColour(t, c) => [2, t, 0, Index(c)]
    case HintNumber(t, n) => [2, t, 1, n]
  }

  lemma ParseGoes(s: State, p: nat, menu: Menu, x: int, next: Menu, rest: seq<int>)
    requires Shape(s) && p < s.numPlayers && React(s, p, menu, x) == Goto(next)
    ensures Parse(s, p, menu, [x] + rest) == Parse(s, p, next, rest)
  {
    assert ([x] + rest)[1..] == rest;
  }

  lemma ParseCommits(s: State, p: nat, menu: Menu, x: int, a: Action, rest: seq<int>)
    requires Shape(s) && p < s.numPlayers && React(s, p, menu, x) == Commit(a)
    ensures Parse(s, p, menu, [x] + rest) == Parsed(Act(a), rest)
  {
    assert ([x] + rest)[1..] == rest;
  }

  lemma TwoAnswersCommit(s: State, p: nat, x: int, menu: Menu, y: int, a: Action, rest: seq<int>)
    requires Shape(s) && p < s.numPlayers
    requires React(s, p, PickAction, x) == Goto(menu) && React(s, p, menu, y) == Commit(a)
    ensures Parse(s, p, PickAction, [x, y] + rest) == Parsed(Act(a), rest)
  {
    ParseCommits(s, p, menu, y, a, rest);
    ParseGoes(s, p, PickAction, x, menu, [y] + rest);
    assert [x, y] + rest == [x] + ([y] + rest);
  }

  lemma HintIsSpelled(s: State, p: nat, t: nat, kind: int, menu: Menu, rest: seq<int>)
    requires Shape(s) && p < s.numPlayers && t < s.numPlayers && t != p && s.blue != 0
    requires (kind == 0 && menu == PickColour(t)) || (kind == 1 && menu == PickNumber(t))
    ensures Parse(s, p, PickAction, [2, t, kind] + rest) == Parse(s, p, menu, rest)
  {
    ParseGoes(s, p, PickHintType(t), kind, menu, rest);
    ParseGoes(s, p, PickHintee, t, PickHintType(t), [kind] + rest);
    ParseGoes(s, p, PickAction, 2, PickHintee, [t] + ([kind] + rest));
    assert [2, t, kind] + rest == [2] + ([t] + ([kind] + rest));
  }

  /** Every legal action can be entered, and what follows it is left unread. */
  lemma SpellingIsParsed(s: State, p: nat, a: Action, rest: seq<int>)
    requires Legal(s, p, a)
    ensures Parse(s, p, PickAction, Spelling(a) + rest) == Parsed(Act(a), rest)
  {
    match a
    case Play(k) => TwoAnswersCommit(s, p, 0, PickPlay, k, a, rest);
    case Discard(k) => TwoAnswersCommit(s, p, 1, PickDiscard, k, a, rest);
    case HintColour(t, c) =>
      var x := Index(c);
      assert ColourAt(x) == c;
      ParseCommits(s, p, PickColour(t), x, a, rest);
      HintIsSpelled(s, p, t, 0, PickColour(t), [x] + rest);
      assert Spelling(a) + rest == [2, t, 0] + ([x] + rest);
    case HintNumber(t, n) =>
      ParseCommits(s, p, PickNumber(t), n, a, rest);
      HintIsSpelled(s, p, t, 1, PickNumber(t), [n] + rest);
      assert Spelling(a) + rest == [2, t, 1] + ([n] + rest);
  }

  /** The answers that led to a menu. */
  function Trail(menu: Menu): seq<int> {
    match menu
    case PickAction => []
    case PickPlay => [0]
    case PickDiscard => [1]
    case PickHintee => [2]
    case PickHintType(t) => [2, t]
    case PickColour(t) => [2, t, 0]
    case PickNumber(t) => [2, t, 1]
  }

  /**
   * The answers left after striking out those that were refused and those before the last return to the first
   * question.
   */
  function Kept(s: State, p: nat, menu: Menu, kept: seq<int>, input: seq<int>): seq<int>
    requires Shape(s) && p < s.numPlayers
    decreases |input|
  {
    if input == [] then kept
    else
      var reply := React(s, p, menu, input[0]);
      if !reply.Goto? then kept + [input[0]]
      else if reply.menu == PickAction then Kept(s, p, PickAction, [], input[1..])
      else if reply.menu == menu then Kept(s, p, menu, kept, input[1..])
      else Kept(s, p, reply.menu, kept + [input[0]], input[1..])
  }

  lemma ReplySpells(s: State, p: nat, menu: Menu, x: int)
    requires Shape(s) && p < s.numPlayers
    ensures match React(s, p, menu, x)
            case Goto(m) => m == menu || m == PickAction || Trail(m) == Trail(menu) + [x]
            case Commit(a) => Spelling(a) == Trail(menu) + [x]
            case Undefined => SpellsEmptyPlay(s, p, Trail(menu) + [x])
  {
  }

  /** An EMPTY card in the player's hand is played. */
  predicate SpellsEmptyPlay(s: State, p: nat, kept: seq<int>)
    requires Shape(s) && p < s.numPlayers
  {
    |kept| == 2 && kept[0] == 0 && 0 <= kept[1] < |s.hands[p]| && s.hands[p][kept[1]].colour == EMPTY
  }

  /** An action commits only by being spelled out: what is left of the dialogue is exactly its spelling. */
  lemma {:induction false} CommittedActionWasSpelled(s: State, p: nat, menu: Menu, input: seq<int>)
    requires Shape(s) && p < s.numPlayers
    ensures var q := Parse(s, p, menu, input);
            var kept := Kept(s, p, menu, Trail(menu), input);
            && (q.outcome.Act? ==> kept == Spelling(q.outcome.action))
            && (q.outcome.PlaysEmpty? ==> SpellsEmptyPlay(s, p, kept))
    decreases |input|
  {
    if input != [] {
      ReplySpells(s, p, menu, input[0]);
      if React(s, p, menu, input[0]).Goto? {
        CommittedActionWasSpelled(s, p, React(s, p, menu, input[0]).menu, input[1..]);
      }
    }
  }

  /** The parse reads a prefix of its input, never looks beyond it, and needs all of it. */
  lemma {:induction false} ParseReadsAPrefix(s: State, p: nat, menu: Menu, input: seq<int>, other: seq<int>)
    requires Shape(s) && p < s.numPlayers
    ensures var q := Parse(s, p, menu, input);
            && |q.rest| <= |input|
            && input[|input| - |q.rest|..] == q.rest
            && (input != [] ==> |q.rest| < |input|)
            && (!q.outcome.Ended? ==>
                var read := input[..|input| - |q.rest|];
                && Parse(s, p, menu, read + other) == Parsed(q.outcome, other)
                && forall n :: 0 <= n < |read| ==> Parse(s, p, menu, read[..n]).outcome == Ended)
            && (q.outcome.Ended? ==> q.rest == [])
    decreases |input|
  {
    if input != [] {
      var q, reply := Parse(s, p, menu, input), React(s, p, menu, input[0]);
      if !reply.Goto? {
        assert input[..1] == [input[0]];
        assert (input[..1] + other)[1..] == other;
      } else {
        ParseReadsAPrefix(s, p, reply.menu, input[1..], other);
        if !q.outcome.Ended? {
          var read := input[..|input| - |q.rest|];
          var read' := input[1..][..|input[1..]| - |q.rest|];
          assert read == [input[0]] + read';
          assert (read + other)[1..] == read' + other;
          BeginningsStillEnd(s, p, menu, input[0], read');
        }
      }
    }
  }

  lemma BeginningsStillEnd(s: State, p: nat, menu: Menu, x: int, read: seq<int>)
    requires Shape(s) && p < s.numPlayers && React(s, p, menu, x).Goto?
    requires forall n :: 0 <= n < |read| ==> Parse(s, p, React(s, p, menu, x).menu, read[..n]).outcome == Ended
    ensures forall n :: 0 <= n <= |read| ==> Parse(s, p, menu, ([x] + read)[..n]).outcome == Ended
  {
    forall n | 0 <= n <= |read|
      ensures Parse(s, p, menu, ([x] + read)[..n]).outcome == Ended
    {
      if n > 0 {
        assert ([x] + read)[..n][1..] == read[..n - 1];
      }
    }
  }

  /** Answers that arrive later do not change what has been committed. */
  lemma ParseOfLonger(s: State, p: nat, menu: Menu, input: seq<int>, longer: seq<int>)
    requires Shape(s) && p < s.numPlayers && input <= longer
    requires !Parse(s, p, menu, input).outcome.Ended?
    ensures var q, r := Parse(s, p, menu, input), Parse(s, p, menu, longer);
            r.outcome == q.outcome && q.rest <= r.rest
  {
    var rest := Parse(s, p, menu, input).rest;
    var more := longer[|input|..];
    ParseReadsAPrefix(s, p, menu, input, rest + more);
    var read := input[..|input| - |rest|];
    assert read + (rest + more) == longer;
  }

  // ----- Answers without effect

  /**
   * The answers that are refused: any that is no choice at this question, a hint without a token for it, to
   * oneself, or about a colour or number that the other hand does not have.
   */
  predicate IsRefused(s: State, p: nat, menu: Menu, x: int)
    requires Shape(s) && p < s.numPlayers && Reachable(s, p, menu)
  {
    match menu
    case PickAction => !(0 <= x <= 2) || (x == 2 && s.blue == 0)
    case PickPlay => !(-1 <= x < |s.hands[p]|)
    case PickDiscard => !(-1 <= x < |s.hands[p]|)
    case PickHintee => !(-1 <= x < s.numPlayers) || x == p
    case PickHintType(_) => !(-1 <= x <= 1)
    case PickColour(t) =>
      && x != -1
      && (!(0 <= x < NUM_COLOURS) || forall i :: 0 <= i < |s.hands[t]| ==> Index(s.hands[t][i].colour) != x)
    case PickNumber(t) => x != -1 && (!(1 <= x <= 5) || forall i :: 0 <= i < |s.hands[t]| ==> s.hands[t][i].number != x)
  }

  /** A refused answer is as good as not given, -1 takes back what was chosen so far, and every other answer counts. */
  lemma OneAnswer(s: State, p: nat, menu: Menu, x: int, rest: seq<int>)
    requires Shape(s) && p < s.numPlayers && Reachable(s, p, menu)
    ensures IsRefused(s, p, menu, x) ==> Parse(s, p, menu, [x] + rest) == Parse(s, p, menu, rest)
    ensures menu != PickAction && x == -1 ==> Parse(s, p, menu, [x] + rest) == Parse(s, p, PickAction, rest)
    ensures var reply := React(s, p, menu, x);
            !IsRefused(s, p, menu, x) && x != -1 ==>
              && (reply.Goto? ==> Trail(reply.menu) == Trail(menu) + [x] && Reachable(s, p, reply.menu))
              && (reply.Commit? ==> Legal(s, p, reply.action))
              && (reply.Undefined? ==> menu == PickPlay)
  {
    assert ([x] + rest)[1..] == rest;
    if menu.PickColour? && 0 <= x < NUM_COLOURS {
      assert forall c: Colour :: c == ColourAt(x) <==> Index(c) == x;
    }
  }

  // ----- Answers out of range

  /** The least and the greatest answer that a menu accepts as a number. */
  function Bounds(s: State, p: nat, menu: Menu): (int, int)
    requires Shape(s) && p < s.numPlayers
  {
    match menu
    case PickAction => (0, 2)
    case PickPlay => (-1, |s.hands[p]| - 1)
    case PickDiscard => (-1, |s.hands[p]| - 1)
    case PickHintee => (-1, s.numPlayers - 1)
    case PickHintType(_) => (-1, 1)
    case PickColour(_) => (-1, NUM_COLOURS - 1)
    case PickNumber(_) => (-1, 5)
  }

  /** The first answer within bounds, if there is one, and the answers behind it. */
  datatype Answer = Answer(value: int, rest: seq<int>) | NoAnswer

  function FirstInRange(lower: int, higher: int, input: seq<int>): Answer {
    if input == [] then NoAnswer
    else if lower <= input[0] <= higher then Answer(input[0], input[1..])
    else FirstInRange(lower, higher, input[1..])
  }

  /** What is skipped is out of bounds, what is found is not; nothing is found only if everything is out of bounds. */
  lemma {:induction false} FirstInRangeIsFirst(lower: int, higher: int, input: seq<int>)
    ensures match FirstInRange(lower, higher, input)
            case Answer(x, rest) =>
              && lower <= x <= higher
              && |rest| < |input|
              && input == input[..|input| - |rest| - 1] + [x] + rest
              && forall i :: 0 <= i < |input| - |rest| - 1 ==> !(lower <= input[i] <= higher)
            case NoAnswer => forall i :: 0 <= i < |input| ==> !(lower <= input[i] <= higher)
  {
    if input != [] && !(lower <= input[0] <= higher) {
      FirstInRangeIsFirst(lower, higher, input[1..]);
    }
  }

  /** Answers out of a menu's bounds are as good as not given. */
  lemma {:induction false} ParseSkipsOutOfRange(s: State, p: nat, menu: Menu, input: seq<int>)
    requires Shape(s) && p < s.numPlayers
    ensures var (lower, higher) := Bounds(s, p, menu);
            match FirstInRange(lower, higher, input)
            case Answer(x, rest) =>
              && |rest| < |input|
              && (match React(s, p, menu, x)
                  case Goto(m) => Parse(s, p, menu, input) == Parse(s, p, m, rest)
                  case Commit(a) => Parse(s, p, menu, input) == Parsed(Act(a), rest)
                  case Undefined => Parse(s, p, menu, input) == Parsed(PlaysEmpty, rest))
            case NoAnswer => Parse(s, p, menu, input) == Parsed(Ended, [])
  {
    var (lower, higher) := Bounds(s, p, menu);
    if input != [] && !(lower <= input[0] <= higher) {
      ParseSkipsOutOfRange(s, p, menu, input[1..]);
    }
  }
}
