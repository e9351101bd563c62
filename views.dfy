/**
  The grouping views offered in the tool window (models/View.kt): a record of
  a key and a display value, three constant instances, and their order in
  the view selector.
 */
module Views {

  datatype View = View(key: string, value: string) {
    /** `toString()` shows the display value. */
    function ToString(): string {
      value
    }
  }

  /** `View()`: both properties default to the empty string. */
  const DefaultView: View := View("", "")

  const Rule: View := View("rules", "View by rules")
  const Location: View := View("location", "View by location")
  const AlertNumber: View := View("alert num", "View by GHAS alert number")

  /** `View.views`, the order of the view selector. */
  const AllViews: seq<View> := [Rule, Location, AlertNumber]

  /** The three views have pairwise distinct keys (and so differ), and the
      selector lists exactly them, rule view first. */
  lemma ViewsDistinct()
    ensures Rule.key != Location.key && Location.key != AlertNumber.key && Rule.key != AlertNumber.key
    ensures |AllViews| == 3 && AllViews[0] == Rule && AllViews[1] == Location && AllViews[2] == AlertNumber
    ensures forall v :: v in AllViews <==> v == Rule || v == Location || v == AlertNumber
  {
  }

  /** The default view is none of the three, so SarifService rejects it. */
  lemma DefaultIsNoView()
    ensures DefaultView !in AllViews
  {
  }
}
