/**
 * The satisfaction column of the products table (`SatisfactionIndicator`): a
 * score between 60 and 99 derived from the product id's hash, shown as a
 * percentage in one of four colours and as a bar of that width.
 */
module Satisfaction {
  import IdHash

  /** `Math.abs(hash) % 40 + 60`. */
  function Score(productId: string): (score: int)
    ensures 60 <= score <= 99
  {
    IdHash.Abs(IdHash.Hash(productId)) % 40 + 60
  }

  /** `getSatisfactionColor`. */
  function TextColour(score: int): string
  {
    if score >= 90 then "text-green-600"
    else if score >= 80 then "text-blue-600"
    else if score >= 70 then "text-yellow-600"
    else "text-red-600"
  }

  /** The bar's colour class, chosen by its own chain of thresholds. */
  function BarColour(score: int): string
  {
    if score >= 90 then "bg-green-500"
    else if score >= 80 then "bg-blue-500"
    else if score >= 70 then "bg-yellow-500"
    else "bg-red-500"
  }

  /** The colour band a score falls in, by tens from 70 up. */
  function Band(score: int): string
  {
    if score < 70 then "red"
    else if score < 80 then "yellow"
    else if score < 90 then "blue"
    else "green"
  }

  /** The number and the bar are always drawn in the same colour band. */
  lemma ColoursShareBand(score: int)
    ensures TextColour(score) == "text-" + Band(score) + "-600"
    ensures BarColour(score) == "bg-" + Band(score) + "-500"
  {
    if score < 70 {
      assert "text-" + "red" + "-600" == "text-red-600" && "bg-" + "red" + "-500" == "bg-red-500";
    } else if score < 80 {
      assert "text-" + "yellow" + "-600" == "text-yellow-600" && "bg-" + "yellow" + "-500" == "bg-yellow-500";
    } else if score < 90 {
      assert "text-" + "blue" + "-600" == "text-blue-600" && "bg-" + "blue" + "-500" == "bg-blue-500";
    } else {
      assert "text-" + "green" + "-600" == "text-green-600" && "bg-" + "green" + "-500" == "bg-green-500";
    }
  }

  /** Every score from 60 to 99 is produced by some one-character id. */
  lemma EveryScoreReachable(score: int)
    requires 60 <= score <= 99
    ensures Score([(score - 20) as char]) == score
  {
    IdHash.SingleUnitHash((score - 20) as char);
  }

  /** The empty id hashes to 0 and scores 60, drawn red. */
  lemma EmptyIdScore()
    ensures Score("") == 60 && TextColour(Score("")) == "text-red-600"
  {
  }

  datatype View = Placeholder | Shown(score: int, textColour: string, barColour: string, widthPercent: int)

  /** Before the client has mounted only a grey placeholder is drawn. */
  function Indicator(isClient: bool, productId: string): (v: View)
    ensures v.Placeholder? <==> !isClient
    ensures v.Shown? ==> 60 <= v.score <= 99 && v.widthPercent == v.score
    ensures v.Shown? ==> v.textColour == "text-" + Band(v.score) + "-600" && v.barColour == "bg-" + Band(v.score) + "-500"
  {
    if !isClient then Placeholder
    else
      var s := Score(productId);
      ColoursShareBand(s);
      Shown(s, TextColour(s), BarColour(s), s)
  }
}
