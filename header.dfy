/** src/components/header.tsx: the fallback initials of the signed-in user. */
module Header {
  import opened Wrappers
  import opened Strings
  import opened NameInitials

  /**
   * getInitials: a missing or empty name gives "U"; any other name gives
   * the upper-cased first characters of its first two words.
   */
  function GetInitials(name: Option<string>): (r: string)
    ensures name.None? || name == Some("") ==> r == "U"
    ensures name.Some? && name.value != "" ==> r == TakeTwo(ToUpperAscii(WordStarts(name.value, true)))
    ensures |r| <= 2
  {
    match name
    case None => "U"
    case Some(n) =>
      if n == "" then "U"
      else
        InitialsSpec(n);
        Initials(n)
  }

  /**
   * The "U" fallback only covers the empty name: a name of spaces only is
   * truthy, splits into empty pieces and gives no initials at all.
   */
  lemma SpacesOnlyGiveNoInitials(n: string)
    requires n != "" && forall i :: 0 <= i < |n| ==> n[i] == ' '
    ensures GetInitials(Some(n)) == ""
  {
    InitialsNonEmptyIff(n);
  }

  /** Any other non-empty name gives one or two initials. */
  lemma InitialsPresent(n: string)
    requires exists i :: 0 <= i < |n| && n[i] != ' '
    ensures 1 <= |GetInitials(Some(n))| <= 2
  {
    InitialsNonEmptyIff(n);
  }
}
