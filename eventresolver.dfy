/**
 * The message texts of the game: the one shown when a cell is revealed,
 * and the one shown when a mini-game reports its result.
 */
module EventResolver {
  import opened Wrappers
  import opened Decimal
  import opened Cells

  const BoomMessage: string := "\U{1F4A5} " + "Boom! You clicked on a rug. Game Over!"
  const CoinFlipEventMessage: string := "\U{1FA99} " + "Coin Flip occurred!"
  const RockPaperScissorsEventMessage: string := "\U{2702}\U{FE0F} " + "Rock, Paper, Scissors event!"
  const DiceRollEventMessage: string := "\U{1F3B2} " + "Dice Roll event!"
  const UpDownEventMessage: string := "\U{2195}\U{FE0F} " + "Bitcoin Prediction event!"
  const NothingMessage: string := "Nothing happened."
  const NeighborPrefix: string := "Number of neighboring rugs: "

  /** `Number of neighboring rugs: ${n}`. */
  function NeighborMessage(n: int): string {
    NeighborPrefix + IntToDecimal(n)
  }

  /**
   * The message revealCell sets for the cell it has just revealed.  For a
   * `nothing` cell with a positive count the message carries the count, and it
   * can be read back from the text after the prefix.
   */
  function RevealMessage(c: Cell): (m: string)
    ensures c.event == Nothing && c.neighborMines > 0 ==>
      && |NeighborPrefix| <= |m|
      && m[..|NeighborPrefix|] == NeighborPrefix
      && AllDigits(m[|NeighborPrefix|..])
      && ParseDecimal(m[|NeighborPrefix|..]) == c.neighborMines
  {
    if c.event == Nothing && c.neighborMines > 0 then
      ParsePrinted(c.neighborMines);
      var m := NeighborMessage(c.neighborMines);
      assert m[|NeighborPrefix|..] == NatToDecimal(c.neighborMines);
      m
    else
    match c.event
    case Bomb => BoomMessage
    case CoinFlip => CoinFlipEventMessage
    case RockPaperScissors => RockPaperScissorsEventMessage
    case DiceRoll => DiceRollEventMessage
    case UpDown => UpDownEventMessage
    case Nothing => NothingMessage
  }

  /** The count a revealed `nothing` cell shows: its count when positive, else none (0). */
  function ShownCount(c: Cell): nat {
    if c.event == Nothing && c.neighborMines > 0 then c.neighborMines else 0
  }

  /** The first two characters of each reveal message; no two branches share them. */
  function RevealMessageHead(c: Cell): string {
    match c.event
    case Bomb => "\U{1F4A5} "
    case CoinFlip => "\U{1FA99} "
    case RockPaperScissors => "\U{2702}\U{FE0F}"
    case DiceRoll => "\U{1F3B2} "
    case UpDown => "\U{2195}\U{FE0F}"
    case Nothing => if c.neighborMines > 0 then "Nu" else "No"
  }

  lemma RevealMessageStarts(c: Cell)
    ensures |RevealMessage(c)| >= 2 && RevealMessage(c)[..2] == RevealMessageHead(c)
  {
  }

  /**
   * The reveal messages tell the branches apart: equal messages mean the same
   * event and, for a `nothing` cell, the same shown count.
   */
  lemma RevealMessageDetermines(c1: Cell, c2: Cell)
    requires RevealMessage(c1) == RevealMessage(c2)
    ensures c1.event == c2.event
    ensures ShownCount(c1) == ShownCount(c2)
  {
    RevealMessageStarts(c1);
    RevealMessageStarts(c2);
    var m := RevealMessage(c1);
    assert RevealMessageHead(c1) == RevealMessageHead(c2);
    assert RevealMessageHead(c1)[0] == RevealMessageHead(c2)[0];
    assert RevealMessageHead(c1)[1] == RevealMessageHead(c2)[1];
    if c1.event == Nothing && c1.neighborMines > 0 && c2.event == Nothing && c2.neighborMines > 0 {
      assert m[|NeighborPrefix|..] == NatToDecimal(c1.neighborMines);
      assert m[|NeighborPrefix|..] == NatToDecimal(c2.neighborMines);
      PrintedInjective(c1.neighborMines, c2.neighborMines);
    }
  }

  /** What a mini-game hands back: a word (Heads, Up, You Win!, ...) or a dice number. */
  datatype EventResult = Text(text: string) | Number(value: int)

  /** `${result}`. */
  function ResultText(r: EventResult): string {
    match r
    case Text(s) => s
    case Number(n) => IntToDecimal(n)
  }

  const RockPaperScissorsResultPrefix: string := "\U{2702}\U{FE0F} " + "Rock, Paper, Scissors Result: "
  const CoinFlipResultPrefix: string := "\U{1FA99} " + "Coin Flip Result: "
  const DiceRollResultPrefix: string := "\U{1F3B2} " + "You rolled a "
  const UpDownResultPrefix: string := "\U{2195}\U{FE0F} " + "Bitcoin Prediction: You predicted it will go "

  /** What stands before the result in the event's result message. */
  function ResultPrefix(e: Event): string
    requires IsMiniGame(e)
  {
    match e
    case RockPaperScissors => RockPaperScissorsResultPrefix
    case CoinFlip => CoinFlipResultPrefix
    case DiceRoll => DiceRollResultPrefix
    case UpDown => UpDownResultPrefix
  }

  /** What stands after the result: "!" for the dice, "." for the prediction. */
  function ResultSuffix(e: Event): string
    requires IsMiniGame(e)
  {
    match e
    case RockPaperScissors => ""
    case CoinFlip => ""
    case DiceRoll => "!"
    case UpDown => "."
  }

  /**
   * The message handleEventComplete sets for the current event and the
   * mini-game's result; None when the current event is no mini-game (then
   * the message is left alone).
   */
  function EventMessage(current: Option<Event>, result: EventResult): (m: Option<string>)
    ensures m.Some? <==> current.Some? && IsMiniGame(current.value)
  {
    match current
    case Some(e) =>
      if IsMiniGame(e) then Some(ResultPrefix(e) + ResultText(result) + ResultSuffix(e)) else None
    case None => None
  }

  /**
   * The text a result message carries between its event's prefix and
   * suffix; None when the message does not start with the prefix and end
   * with the suffix.
   */
  function CarriedText(e: Event, m: string): Option<string>
    requires IsMiniGame(e)
  {
    var p, s := ResultPrefix(e), ResultSuffix(e);
    if |p| + |s| <= |m| && m[..|p|] == p && m[|m| - |s|..] == s then Some(m[|p|..|m| - |s|]) else None
  }

  /** Every result message starts with the emoji of its event. */
  function LeadingEmoji(e: Event): char {
    match e
    case RockPaperScissors => '\U{2702}'
    case CoinFlip => '\U{1FA99}'
    case DiceRoll => '\U{1F3B2}'
    case UpDown => '\U{2195}'
    case _ => ' '
  }

  /** Reading the message back: its first character names the event, the rest the result. */
  lemma EventMessageDecodes(e: Event, result: EventResult)
    requires IsMiniGame(e)
    ensures EventMessage(Some(e), result).Some?
    ensures EventMessage(Some(e), result).value[0] == LeadingEmoji(e)
    ensures CarriedText(e, EventMessage(Some(e), result).value) == Some(ResultText(result))
  {
    var p, t, s := ResultPrefix(e), ResultText(result), ResultSuffix(e);
    var m := p + t + s;
    assert m[..|p|] == p;
    assert m[|m| - |s|..] == s;
    assert m[|p|..|m| - |s|] == t;
    assert m[0] == p[0];
    match e {
      case RockPaperScissors =>
      case CoinFlip =>
      case DiceRoll =>
      case UpDown =>
    }
  }

  /** Distinct (event, result text) pairs give distinct messages. */
  lemma EventMessageInjective(e1: Event, r1: EventResult, e2: Event, r2: EventResult)
    requires EventMessage(Some(e1), r1).Some?
    requires EventMessage(Some(e1), r1) == EventMessage(Some(e2), r2)
    ensures e1 == e2
    ensures ResultText(r1) == ResultText(r2)
  {
    EventMessageDecodes(e1, r1);
    EventMessageDecodes(e2, r2);
  }
}
