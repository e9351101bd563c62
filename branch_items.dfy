/**
  One entry of the branch / pull-request selector
  (models/BranchItemComboBox.kt).
 */
module BranchItems {
  import Numbers
  import opened Options
  import opened Text

  /** `prNumber` 0 stands for the current branch rather than a pull request. */
  datatype BranchItemComboBox = BranchItemComboBox(
    prNumber: int,
    head: string,
    base: string,
    prTitle: string,
    commit: string)
  {
    /** `toString()`: the head for a branch, "pr<n> (<title>)" for a pull
        request. */
    function ToString(): string {
      if prNumber == 0 then head else "pr" + Numbers.ToDecimal(prNumber) + " (" + prTitle + ")"
    }
  }

  /** The constructor's defaults: not a pull request, all strings empty. */
  const DefaultItem: BranchItemComboBox := BranchItemComboBox(0, "", "", "", "")

  /** The item built from the defaults is a branch entry with an empty
      head, so it shows as the empty text. */
  lemma DefaultItemText()
    ensures DefaultItem.ToString() == ""
  {
  }

  /** `base` and `commit` never show in the selector. */
  lemma ToStringIgnoresBaseAndCommit(item: BranchItemComboBox, base: string, commit: string)
    ensures item.(base := base, commit := commit).ToString() == item.ToString()
  {
  }

  /** A branch entry is shown as its head branch name. */
  lemma BranchText(item: BranchItemComboBox)
    requires item.prNumber == 0
    ensures item.ToString() == item.head
  {
  }

  /** A pull-request entry is shown as "pr", then its number, a space and its
      title in parentheses; the number and the title read back from it. */
  lemma PullRequestText(item: BranchItemComboBox)
    requires item.prNumber != 0
    requires Numbers.MinInt32 <= item.prNumber <= Numbers.MaxInt32
    ensures StartsWith(item.ToString(), "pr") && EndsWith(item.ToString(), ")")
    ensures Numbers.ParseInt(Before(item.ToString()[2..], ' ')) == Some(item.prNumber)
    ensures After(item.ToString()[2..], ' ') == Some("(" + item.prTitle + ")")
  {
    var digits := Numbers.ToDecimal(item.prNumber);
    var rest := "(" + item.prTitle + ")";
    assert item.ToString()[2..] == digits + [' '] + rest;
    SplitAtFirst(digits, ' ', rest);
    Numbers.ParseToDecimal(item.prNumber);
  }
}
