/** The avatar text of the desktop layout, a variant of the initials that
    splits on single spaces (client/src/NavBar/MainLayout.tsx). */
module MainLayout {
  import opened Strings

  /** `substring(0, 1)`. */
  function FirstChar(s: string): (r: string)
    ensures |r| <= 1 && |r| <= |s| && r == s[..|r|]
    ensures s != [] ==> r == [s[0]]
  {
    if s == [] then [] else [s[0]]
  }

  /** `getAvatarText`. */
  function GetAvatarText(name: string): (r: string)
    ensures name == [] ==> r == "?"
    ensures |r| <= 2
    ensures name != [] && ' ' !in name ==> r == [UpperChar(name[0])]
  {
    if name == [] then "?"
    else
      var parts := Split(name, ' ');
      if |parts| == 1 then Upper(FirstChar(name))
      else Upper(FirstChar(parts[0]) + FirstChar(parts[|parts| - 1]))
  }

  /** Words joined by single spaces give the first word's initial and the
      last word's, in upper case: "ann lee" gives "AL". */
  lemma {:induction false} FirstAndLastInitials(words: seq<string>)
    requires |words| >= 2
    requires forall i :: 0 <= i < |words| ==> words[i] != [] && ' ' !in words[i]
    ensures GetAvatarText(Join(words, " ")) ==
      [UpperChar(words[0][0]), UpperChar(words[|words| - 1][0])]
  {
    var name := Join(words, " ");
    JoinHead(words, " ");
    JoinSplit(words, ' ');
    assert Split(name, ' ') == words;
    var two := FirstChar(words[0]) + FirstChar(words[|words| - 1]);
    assert two == [words[0][0], words[|words| - 1][0]];
  }

  /** A trailing space leaves an empty last part, so only the first word
      contributes: "Ann " gives "A" and "Ann Lee " gives "A" too. */
  lemma TrailingSpaceDropsLastInitial(words: seq<string>)
    requires words != [] && words[0] != []
    requires forall i :: 0 <= i < |words| ==> ' ' !in words[i]
    ensures GetAvatarText(Join(words, " ") + " ") == [UpperChar(words[0][0])]
  {
    var joined := Join(words, " ");
    var name := Join(words + [[]], " ");
    JoinAppend(words, []);
    assert name == joined + " " + [];
    assert joined + " " == name;
    JoinSplit(words + [[]], ' ');
    var parts := Split(name, ' ');
    assert parts == words + [[]];
    assert name[0] == words[0][0] by { JoinHead(words + [[]], " "); }
  }

  lemma {:induction false} JoinAppend(parts: seq<string>, last: string)
    requires parts != []
    ensures Join(parts + [last], " ") == Join(parts, " ") + " " + last
  {
    if |parts| > 1 {
      JoinAppend(parts[1..], last);
      assert (parts + [last])[1..] == parts[1..] + [last];
    }
  }


  /** White space alone gives the empty text, where the initials give "?". */
  lemma SpacesGiveEmptyText(n: nat)
    requires n > 0
    ensures GetAvatarText(seq(n, _ => ' ')) == []
  {
    var name := seq(n, _ => ' ');
    var parts := Split(name, ' ');
    assert ' ' in name by { assert name[0] == ' '; }
    assert Join(parts, " ") == name by { SplitJoin(name, ' '); }
    AllPartsEmpty(name);
  }

  lemma {:induction false} AllPartsEmpty(s: string)
    requires forall i :: 0 <= i < |s| ==> s[i] == ' '
    ensures forall i :: 0 <= i < |Split(s, ' ')| ==> Split(s, ' ')[i] == []
  {
    if s != [] { AllPartsEmpty(s[1..]); }
  }
}
