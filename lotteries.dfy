// The lottery variants offered to the user and the rules record the
// generator is fed with (src/config/lotteries.ts).

module Lotteries {

  /** The seven variants of the table; the table is total over them. */
  datatype LotteryKey =
    | Custom
    | MegaSena
    | Quina
    | Lotofacil
    | Lotomania
    | DuplaSena
    | MaisMilionaria

  /** An inclusive interval `{ min, max }`. */
  datatype Bounds = Bounds(min: int, max: int)

  /** The rules of one variant: which values may be drawn (`range`), how many
      values one game may hold (`dozens`), and the two behaviour flags. The
      informational prize list and price table are not part of this model. */
  datatype LotteryRules = LotteryRules(
    key: LotteryKey,
    name: string,
    range: Bounds,
    dozens: Bounds,
    uniqueNumbers: bool,
    sortAscending: bool)

  /** Number of integers in an inclusive interval. */
  function Available(b: Bounds): int {
    b.max - b.min + 1
  }

  /** The shape every shipped variant has: a non-empty value range and a
      non-empty range of pick counts starting at one or more. */
  predicate WellFormed(rules: LotteryRules) {
    rules.range.min <= rules.range.max &&
    1 <= rules.dozens.min <= rules.dozens.max
  }

  /** The `LOTTERIES` table. Every entry is filed under its own key, is well
      formed, never allows more picks than there are values to draw (so a
      unique game is always feasible), and asks for unique, sorted games. */
  function Lottery(k: LotteryKey): (rules: LotteryRules)
    ensures rules.key == k
    ensures WellFormed(rules)
    ensures rules.dozens.max <= Available(rules.range)
    ensures rules.uniqueNumbers && rules.sortAscending
  {
    match k
    case Custom =>
      LotteryRules(Custom, "Personalizado", Bounds(1, 60), Bounds(1, 60), true, true)
    case MegaSena =>
      LotteryRules(MegaSena, "Mega-Sena", Bounds(1, 60), Bounds(6, 20), true, true)
    case Quina =>
      LotteryRules(Quina, "Quina", Bounds(1, 80), Bounds(5, 15), true, true)
    case Lotofacil =>
      LotteryRules(Lotofacil, "Lotofácil", Bounds(1, 25), Bounds(15, 20), true, true)
    case Lotomania =>
      LotteryRules(Lotomania, "Lotomania", Bounds(0, 99), Bounds(50, 50), true, true)
    case DuplaSena =>
      LotteryRules(DuplaSena, "Dupla Sena", Bounds(1, 50), Bounds(6, 15), true, true)
    case MaisMilionaria =>
      LotteryRules(MaisMilionaria, "+Milionária", Bounds(1, 50), Bounds(6, 6), true, true)
  }
}
