/** The avatar's own copy of `getInitials`. */
module AvatarIcon {
  import opened Text
  import Names

  /**
   * The local `getInitials` of the avatar: the same loop as the shared
   * helper, and it computes the same initials on every name.
   */
  method GetInitials(fullName: string) returns (initials: string)
    ensures initials == Names.Initials(fullName)
    ensures |initials| <= 2
    ensures forall k :: 0 <= k < |initials| ==> !IsLower(initials[k])
  {
    var words := SplitOn(fullName, ' ');
    initials := "";
    for i := 0 to |words|
      invariant initials == (if i > 0 then Names.WordInitial(words[0]) else "")
                            + (if i == |words| && |words| > 1 then Names.WordInitial(words[|words| - 1]) else "")
    {
      var word := words[i];
      if |word| > 0 {
        var capitalized := [UpperChar(word[0])];
        if i == 0 || i == |words| - 1 {
          initials := initials + capitalized;
        }
      }
    }
  }
}
