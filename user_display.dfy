/** The avatar initials of the navigation bar
    (client/src/NavBar/userDisplay.ts). */
module UserDisplay {
  import opened Wrappers
  import opened Strings

  /** The longest prefix free of white space. */
  function WordPrefix(s: string): (r: string)
    ensures |r| <= |s| && r == s[..|r|]
    ensures forall i :: 0 <= i < |r| ==> !IsSpace(r[i])
    ensures |r| < |s| ==> IsSpace(s[|r|])
  {
    if s != [] && !IsSpace(s[0]) then [s[0]] + WordPrefix(s[1..]) else []
  }

  /** No character of `w` is white space. */
  predicate NoSpace(w: string) {
    forall j :: 0 <= j < |w| ==> !IsSpace(w[j])
  }

  /** `split(/\s+/).filter(Boolean)`: the maximal runs of characters that
      are not white space, in order. */
  function Words(s: string): (r: seq<string>)
    ensures forall i :: 0 <= i < |r| ==> r[i] != [] && NoSpace(r[i])
    decreases |s|
  {
    var t := TrimStart(s);
    if t == [] then []
    else
      var w := WordPrefix(t);
      assert w != [] by { assert !IsSpace(t[0]); }
      var rest := Words(t[|w|..]);
      var r := [w] + rest;
      assert r[0] == w && r[1..] == rest;
      r
  }

  /** There are no words exactly when the text is all white space. */
  lemma {:induction false} WordsEmptyIff(s: string)
    ensures Words(s) == [] <==> AllSpace(s)
  {
    var t := TrimStart(s);
    if AllSpace(s) {
      TrimStartAllSpace(s);
    } else {
      var i :| 0 <= i < |s| && !IsSpace(s[i]);
      assert t != [];
    }
  }

  /** A text without white space is one word. */
  lemma WordsOfWord(w: string)
    requires w != [] && forall i :: 0 <= i < |w| ==> !IsSpace(w[i])
    ensures Words(w) == [w]
  {
    assert TrimStart(w) == w by { assert !IsSpace(w[0]); }
    WordPrefixAll(w);
    assert w[|w|..] == [];
    assert TrimStart([]) == [];
    assert Words([]) == [];
  }

  lemma {:induction false} WordPrefixAll(w: string)
    requires forall i :: 0 <= i < |w| ==> !IsSpace(w[i])
    ensures WordPrefix(w) == w
  {
    if w != [] { WordPrefixAll(w[1..]); }
  }

  /** `getAvatarInitials`. */
  function GetAvatarInitials(name: Option<string>): (r: string)
    ensures name.None? || name.value == [] ==> r == "?"
    ensures |r| == 1 || |r| == 2
  {
    if name.None? || name.value == [] then "?"
    else
      var parts := Words(Trim(name.value));
      if parts == [] then "?"
      else if |parts| == 1 then [UpperChar(parts[0][0])]
      else [UpperChar(parts[0][0]), UpperChar(parts[|parts| - 1][0])]
  }

  /** A name made only of white space also gives "?". */
  lemma BlankNameInitials(name: string)
    requires AllSpace(name)
    ensures GetAvatarInitials(Some(name)) == "?"
  {
    if name != [] {
      TrimEmptyIffAllSpace(name);
      assert Words(Trim(name)) == [];
    }
  }

  /** Words joined by single spaces split back into the same words. */
  lemma {:induction false} WordsOfJoin(ws: seq<string>)
    requires ws != []
    requires forall i :: 0 <= i < |ws| ==> ws[i] != [] && NoSpace(ws[i])
    ensures Words(Join(ws, " ")) == ws
  {
    if |ws| == 1 {
      WordsOfWord(ws[0]);
    } else {
      var tail := ws[1..];
      forall i | 0 <= i < |tail| ensures tail[i] != [] && NoSpace(tail[i]) {
        assert tail[i] == ws[i + 1];
      }
      calc {
        Words(Join(ws, " "));
        Words(ws[0] + " " + Join(tail, " "));
        { WordsOfWordThenSpace(ws[0], Join(tail, " ")); }
        [ws[0]] + Words(Join(tail, " "));
        { WordsOfJoin(tail); }
        [ws[0]] + tail;
        ws;
      }
    }
  }

  /** A word and a space in front of a text add that word in front of the
      text's words. */
  lemma {:induction false} WordsOfWordThenSpace(w: string, rest: string)
    requires w != [] && NoSpace(w)
    ensures Words(w + " " + rest) == [w] + Words(rest)
  {
    var s := w + " " + rest;
    assert s == w + (" " + rest);
    assert s[0] == w[0];
    WordsStep(s);
    WordPrefixStops(w, " " + rest);
    assert s[|w|..] == " " + rest;
    WordsSkipSpace(rest);
  }

  lemma {:induction false} WordsStep(s: string)
    requires s != [] && !IsSpace(s[0])
    ensures Words(s) == [WordPrefix(s)] + Words(s[|WordPrefix(s)|..])
  {
    assert TrimStart(s) == s;
  }

  lemma {:induction false} WordsSkipSpace(rest: string)
    ensures Words(" " + rest) == Words(rest)
  {
    assert (" " + rest)[1..] == rest;
    var t := TrimStart(rest);
    assert TrimStart(" " + rest) == t;
    WordsOfTrimmed(" " + rest);
    WordsOfTrimmed(rest);
  }

  /** Leading white space does not change the words. */
  lemma {:induction false} WordsOfTrimmed(s: string)
    ensures Words(s) == Words(TrimStart(s))
  {
    var t := TrimStart(s);
    assert TrimStart(t) == t;
  }

  lemma {:induction false} WordPrefixStops(w: string, rest: string)
    requires forall i :: 0 <= i < |w| ==> !IsSpace(w[i])
    requires rest != [] && IsSpace(rest[0])
    ensures WordPrefix(w + rest) == w
  {
    if w != [] {
      assert (w + rest)[1..] == w[1..] + rest;
      WordPrefixStops(w[1..], rest);
    } else {
      assert w + rest == rest;
    }
  }

  /** Words separated by single spaces, with white space around them or not,
      give the upper-cased first character of the first word and, when there
      are several words, of the last one: " ann  " gives "A", "ann lee" gives
      "AL". */
  lemma {:induction false} InitialsOfWords(ws: seq<string>, before: string, after: string)
    requires ws != []
    requires forall i :: 0 <= i < |ws| ==> ws[i] != [] && NoSpace(ws[i])
    requires AllSpace(before) && AllSpace(after)
    ensures GetAvatarInitials(Some(before + Join(ws, " ") + after)) ==
      if |ws| == 1 then [UpperChar(ws[0][0])]
      else [UpperChar(ws[0][0]), UpperChar(ws[|ws| - 1][0])]
  {
    var joined := Join(ws, " ");
    assert joined != [] && Trim(before + joined + after) == joined && Words(joined) == ws by {
      JoinHead(ws, " ");
      JoinLast(ws, " ");
      assert !IsSpace(joined[|joined| - 1]) by {
        var l := ws[|ws| - 1];
        assert NoSpace(l);
      }
      TrimAround(before, joined, after);
      WordsOfJoin(ws);
    }
    assert |before + joined + after| >= |joined|;
    InitialsOfParts(before + Join(ws, " ") + after, joined, ws);
  }

  lemma InitialsOfParts(name: string, trimmed: string, ws: seq<string>)
    requires name != [] && Trim(name) == trimmed && Words(trimmed) == ws && ws != []
    ensures GetAvatarInitials(Some(name)) ==
      if |ws| == 1 then [UpperChar(ws[0][0])]
      else [UpperChar(ws[0][0]), UpperChar(ws[|ws| - 1][0])]
  {
  }

  /** A single word, with white space around it or not, gives its first
      character in upper case. */
  lemma SingleWordInitial(w: string, before: string, after: string)
    requires w != [] && forall i :: 0 <= i < |w| ==> !IsSpace(w[i])
    requires AllSpace(before) && AllSpace(after)
    ensures GetAvatarInitials(Some(before + w + after)) == [UpperChar(w[0])]
  {
    var name := before + w + after;
    assert Trim(name) == w by { TrimAround(before, w, after); }
    WordsOfWord(w);
  }

  lemma TrimAround(before: string, w: string, after: string)
    requires w != [] && !IsSpace(w[0]) && !IsSpace(w[|w| - 1])
    requires AllSpace(before) && AllSpace(after)
    ensures Trim(before + w + after) == w
  {
    var s := before + w + after;
    assert before + (w + after) == s;
    TrimStartAround(before, w + after);
    assert TrimStart(s) == w + after;
    TrimEndAround(w, after);
    assert Trim(s) == TrimEnd(TrimStart(s));
  }

  lemma {:induction false} TrimStartAround(before: string, rest: string)
    requires AllSpace(before) && (rest != [] ==> !IsSpace(rest[0]))
    ensures TrimStart(before + rest) == rest
  {
    if before != [] {
      assert (before + rest)[1..] == before[1..] + rest;
      TrimStartAround(before[1..], rest);
    } else {
      assert before + rest == rest;
    }
  }

  lemma {:induction false} TrimEndAround(w: string, after: string)
    requires w != [] && !IsSpace(w[|w| - 1]) && AllSpace(after)
    ensures TrimEnd(w + after) == w
    decreases |after|
  {
    if after != [] {
      var a := after[..|after| - 1];
      assert (w + after)[..|w + after| - 1] == w + a;
      TrimEndAround(w, a);
    } else {
      assert w + after == w;
    }
  }
}
