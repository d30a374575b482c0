/** `getInitials`: the avatar initials of a participant name. */
module Names {
  import opened Text

  /** The upper-cased first character of a word, or nothing for an empty word. */
  function WordInitial(word: string): (r: string)
    ensures |r| <= 1
    ensures |r| == 1 <==> |word| > 0
    ensures |word| > 0 ==> r[0] == UpperChar(word[0])
  {
    if |word| > 0 then [UpperChar(word[0])] else ""
  }

  /**
   * What the initials of a name are: the initial of the first
   * space-separated word, then that of the last word when it is a
   * different word. Words in between never contribute.
   */
  function Initials(fullName: string): (r: string)
    ensures |r| <= 2
  {
    var words := SplitOn(fullName, ' ');
    WordInitial(words[0]) + (if |words| > 1 then WordInitial(words[|words| - 1]) else "")
  }

  /**
   * The loop of `getInitials`: visit every word of `fullName.split(' ')`,
   * and add the upper-cased first character of a non-empty word when it
   * is the first or the last one.
   */
  method GetInitials(fullName: string) returns (initials: string)
    ensures initials == Initials(fullName)
  {
    var words := SplitOn(fullName, ' ');
    initials := "";
    var i := 0;
    while i < |words|
      invariant 0 <= i <= |words|
      invariant initials == (if i > 0 then WordInitial(words[0]) else "")
                            + (if i == |words| && |words| > 1 then WordInitial(words[|words| - 1]) else "")
    {
      var word := words[i];
      if |word| > 0 {
        var capitalized := [UpperChar(word[0])];
        if i == 0 || i == |words| - 1 {
          initials := initials + capitalized;
        }
      }
      i := i + 1;
    }
  }

  /**
   * For a name made of the words `words` (joined by single spaces), the
   * initials are those of the first and the last word and of no other;
   * an empty first or last word contributes nothing.
   */
  lemma InitialsOfWords(words: seq<string>)
    requires |words| >= 1
    requires forall i :: 0 <= i < |words| ==> ' ' !in words[i]
    ensures Initials(Join(words, ' '))
            == WordInitial(words[0]) + (if |words| > 1 then WordInitial(words[|words| - 1]) else "")
  {
    SplitJoin(words, ' ');
  }

  /** A name without a space has at most one initial: that of the whole name. */
  lemma InitialsWithoutSpace(fullName: string)
    requires ' ' !in fullName
    ensures Initials(fullName) == WordInitial(fullName)
    ensures |Initials(fullName)| <= 1
  {
    SplitWithoutSep(fullName, ' ');
  }

  /** Middle words never matter: names that agree on the first and last word have the same initials. */
  lemma MiddleWordsIgnored(words: seq<string>, others: seq<string>)
    requires |words| >= 2 && |others| >= 2
    requires forall i :: 0 <= i < |words| ==> ' ' !in words[i]
    requires forall i :: 0 <= i < |others| ==> ' ' !in others[i]
    requires words[0] == others[0] && words[|words| - 1] == others[|others| - 1]
    ensures Initials(Join(words, ' ')) == Initials(Join(others, ' '))
  {
    InitialsOfWords(words);
    InitialsOfWords(others);
  }

  /** A name without a space or the empty name: at most the one initial of the name. */
  lemma InitialsOfOneWord()
    ensures Initials("") == ""
    ensures Initials("alice") == "A"
  {
    InitialsWithoutSpace("");
    InitialsWithoutSpace("alice");
  }

  /** Three words: the middle one is skipped. */
  lemma InitialsOfThreeWords()
    ensures Initials("alice bob carol") == "AC"
  {
    var words := ["alice", "bob", "carol"];
    assert Join(words[2..], ' ') == "carol";
    assert Join(words[1..], ' ') == "bob carol";
    assert Join(words, ' ') == "alice bob carol";
    InitialsOfWords(words);
  }

  /** A leading or a trailing space leaves an empty first or last word, whose initial is dropped. */
  lemma InitialsWithEdgeSpace()
    ensures Initials(" bob") == "B"
    ensures Initials("bob ") == "B"
  {
    assert Join(["", "bob"], ' ') == " bob";
    InitialsOfWords(["", "bob"]);
    assert Join(["bob", ""], ' ') == "bob ";
    InitialsOfWords(["bob", ""]);
  }
}
