/** The client's display name for a portfolio category number. */
module CategoryHelper {
  import opened Domain

  /** The names shown for the category numbers 0 to 10, in order. */
  const CategoryNames: seq<string> := [
    "Portraits", "Outdoors", "Products", "Wedding", "Events", "Fashion",
    "Architecture", "Wildlife", "Sports", "Food", "Other"
  ]

  /** `getCategoryName`: the name of a known number, and `Other` for every other number. */
  function GetCategoryName(category: int): (name: string)
    ensures 0 <= category < |CategoryNames| ==> name == CategoryNames[category]
    ensures !(0 <= category < |CategoryNames|) ==> name == "Other"
    ensures name in CategoryNames
  {
    if category == 0 then "Portraits"
    else if category == 1 then "Outdoors"
    else if category == 2 then "Products"
    else if category == 3 then "Wedding"
    else if category == 4 then "Events"
    else if category == 5 then "Fashion"
    else if category == 6 then "Architecture"
    else if category == 7 then "Wildlife"
    else if category == 8 then "Sports"
    else if category == 9 then "Food"
    else if category == 10 then "Other"
    else "Other"
  }

  /** The client's names agree with the server's enum: each member's number maps to its name. */
  lemma NamesMatchServer(c: PortfolioCategory)
    ensures GetCategoryName(CategoryValue(c)) == CategoryName(c)
  {
  }

  /** Distinct known numbers get distinct names, except that 10 and the default share `Other`. */
  lemma NamesDistinct(a: int, b: int)
    requires 0 <= a <= 10 && 0 <= b <= 10 && a != b
    ensures GetCategoryName(a) != GetCategoryName(b)
  {
  }
}
