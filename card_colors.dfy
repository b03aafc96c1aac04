/** `getCardColorClass`, the same switch in both schedule grids. */
module CardColors {
  import opened Wrappers

  const PersonalStyle := "bg-green-100 text-green-800 border-green-200"
  const OnlineStyle := "bg-blue-100 text-blue-800 border-blue-200"
  const SpecialProgramStyle := "bg-purple-100 text-purple-800 border-purple-200"
  const DefaultStyle := "bg-gray-100 text-gray-500 border-gray-200"

  /**
   * The style of a card with the given `type` (absent when the entry has none).
   * Personal, Online and Special Program each get their own style; every other
   * value, the empty string, 'Rest' and a missing type included, gets gray.
   */
  function CardColorClass(classType: Option<string>): (style: string)
    ensures style == PersonalStyle <==> classType == Some("Personal")
    ensures style == OnlineStyle <==> classType == Some("Online")
    ensures style == SpecialProgramStyle <==> classType == Some("Special Program")
    ensures style == DefaultStyle <==>
      classType != Some("Personal") && classType != Some("Online") && classType != Some("Special Program")
  {
    match classType
    case Some("Personal") => PersonalStyle
    case Some("Online") => OnlineStyle
    case Some("Special Program") => SpecialProgramStyle
    case _ => DefaultStyle
  }
}
