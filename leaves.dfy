/**
  The normalised finding record (models/Leaf.kt): eleven immutable fields
  compared structurally, and its tree-node text.
 */
module Leaves {

  const StopSign: string := "\U{1F6D1}"
  const WarningSign: string := "\U{26A0}\U{FE0F}"
  const Memo: string := "\U{1F4DD}"

  datatype Leaf = Leaf(
    leafName: string,
    address: string,
    steps: seq<string>,
    location: string,
    ruleId: string,
    ruleName: string,
    ruleDescription: string,
    level: string,
    kind: string,
    githubAlertNumber: string,
    githubAlertUrl: string)
  {
    /** The emoji for the level: one for "error", "warning" and "note" each,
        none for any other level text. */
    function Icon(): (icon: string)
      ensures icon == "" <==> level !in {"error", "warning", "note"}
      ensures icon in {"", StopSign, WarningSign, Memo}
    {
      if level == "error" then StopSign
      else if level == "warning" then WarningSign
      else if level == "note" then Memo
      else ""
    }

    /** `toString()`: the icon, one space, then the address. */
    function ToString(): (s: string)
      ensures |s| == |Icon()| + 1 + |address|
      ensures s[..|Icon()|] == Icon() && s[|Icon()|] == ' ' && s[|Icon()| + 1..] == address
    {
      Icon() + " " + address
    }
  }

  /** The three icons differ, so the text of a node tells its level apart. */
  lemma IconsDistinct()
    ensures StopSign != WarningSign && WarningSign != Memo && StopSign != Memo
  {
    assert |WarningSign| == 2;
  }

  /** A leaf whose level is none of the three named ones, "none" or "null"
      for instance, is shown as a space followed by its address. */
  lemma UnknownLevelText(l: Leaf)
    requires l.level !in {"error", "warning", "note"}
    ensures l.ToString() == " " + l.address
  {
  }

  /** The tree-node text depends only on the level and the address. */
  lemma ToStringDependsOnLevelAndAddress(l: Leaf, m: Leaf)
    requires l.level == m.level && l.address == m.address
    ensures l.ToString() == m.ToString()
  {
  }
}
