/**
 * The profile sidebar: collapsible sections whose open/closed state is a
 * list of section names used as a set, and the avatar fallback built from
 * the initials of the user's name.
 */
module ProfileSidebar {
  import opened Seqs

  /** The three collapsible sections. */
  const Sections: seq<string> := ["subjects", "study", "achievements"]

  /** `expandedSections.includes(section)`. */
  predicate IsExpanded(expanded: seq<string>, section: string) {
    section in expanded
  }

  /** The sidebar opens with only the subjects section expanded. */
  function InitialExpanded(): (r: seq<string>)
    ensures NoDuplicates(r)
    ensures forall t :: IsExpanded(r, t) ==> t in Sections
    ensures forall t :: t in Sections ==> (IsExpanded(r, t) <==> t == "subjects")
  {
    ["subjects"]
  }

  /**
   * `toggleSection`: a present section is filtered out (the others keep their
   * order), an absent one is appended at the end.
   */
  function ToggleSection(expanded: seq<string>, section: string): (r: seq<string>)
    ensures IsExpanded(r, section) <==> !IsExpanded(expanded, section)
    ensures forall t :: t != section ==> (IsExpanded(r, t) <==> IsExpanded(expanded, t))
    ensures IsExpanded(expanded, section) ==> IsSubseq(r, expanded) && |r| < |expanded|
    ensures !IsExpanded(expanded, section) ==> r == expanded + [section]
  {
    if section in expanded then
      var r := Filter(expanded, (t: string) => t != section);
      assert |r| < |expanded| by {
        if |r| == |expanded| {
          FilterKeepsOnlyIfShorter(expanded, section);
        }
      }
      r
    else expanded + [section]
  }

  /** Removing a present element always shortens the sequence. */
  lemma {:induction false} FilterKeepsOnlyIfShorter(xs: seq<string>, x: string)
    requires x in xs
    ensures |Filter(xs, (t: string) => t != x)| < |xs|
  {
    if xs[0] != x {
      FilterKeepsOnlyIfShorter(xs[1..], x);
    } else {
      assert |Filter(xs[1..], (t: string) => t != x)| <= |xs[1..]|;
    }
  }

  /** A duplicate-free list stays duplicate-free: a section is appended only when absent. */
  lemma ToggleKeepsNoDuplicates(expanded: seq<string>, section: string)
    requires NoDuplicates(expanded)
    ensures NoDuplicates(ToggleSection(expanded, section))
  {
    if section in expanded {
      FilterNoDuplicates(expanded, (t: string) => t != section);
    } else {
      var r := expanded + [section];
      forall i, j | 0 <= i < j < |r| ensures r[i] != r[j] {
        if j == |expanded| {
          assert r[i] == expanded[i];
        }
      }
    }
  }

  /**
   * Toggling a section twice restores the same set of expanded sections; when
   * the section started collapsed it restores the very same list.
   */
  lemma ToggleTwice(expanded: seq<string>, section: string)
    ensures forall t :: IsExpanded(ToggleSection(ToggleSection(expanded, section), section), t) <==> IsExpanded(expanded, t)
    ensures !IsExpanded(expanded, section) ==> ToggleSection(ToggleSection(expanded, section), section) == expanded
  {
    if section !in expanded {
      var keep := (t: string) => t != section;
      FilterAppend(expanded, [section], keep);
      FilterKeepsAll(expanded, keep);
      assert Filter([section], keep) == [];
    }
  }

  /** The order need not come back: collapsing and re-expanding "subjects" moves it to the end. */
  lemma ToggleTwiceMayReorder()
    ensures ToggleSection(ToggleSection(["subjects", "study"], "subjects"), "subjects") == ["study", "subjects"]
  {
    var keep := (t: string) => t != "subjects";
    assert Filter(["subjects", "study"], keep) == ["study"] by {
      assert ["subjects", "study"][1..] == ["study"];
      assert ["study"][1..] == [];
    }
  }

  /** The section header's chevron. */
  datatype Chevron = ChevronDown | ChevronRight

  function SectionChevron(expanded: seq<string>, section: string): (r: Chevron)
    ensures r == ChevronDown <==> IsExpanded(expanded, section)
  {
    if section in expanded then ChevronDown else ChevronRight
  }

  /** `s.split(' ')`: the pieces between single spaces; empty pieces are kept. */
  function Split(s: string): (r: seq<string>)
    ensures |r| >= 1
    ensures forall i :: 0 <= i < |r| ==> ' ' !in r[i]
  {
    if |s| == 0 then [""]
    else
      var rest := Split(s[1..]);
      if s[0] == ' ' then [""] + rest
      else
        assert forall i :: 1 <= i < |rest| ==> ([[s[0]] + rest[0]] + rest[1..])[i] == rest[i];
        [[s[0]] + rest[0]] + rest[1..]
  }

  /** A string with `k` spaces splits into `k + 1` pieces. */
  lemma {:induction false} SplitPieceCount(s: string)
    ensures |Split(s)| == |Filter(s, (c: char) => c == ' ')| + 1
  {
    if |s| > 0 {
      SplitPieceCount(s[1..]);
    }
  }

  /** `words.join(' ')`. */
  function Join(words: seq<string>): string
  {
    if |words| == 0 then ""
    else if |words| == 1 then words[0]
    else words[0] + " " + Join(words[1..])
  }

  /** Joining the pieces of a split gives the original string back. */
  lemma {:induction false} JoinSplit(s: string)
    ensures Join(Split(s)) == s
  {
    if |s| > 0 {
      var rest := Split(s[1..]);
      JoinSplit(s[1..]);
      if s[0] == ' ' {
        assert ([""] + rest)[1..] == rest;
      } else {
        var r := [[s[0]] + rest[0]] + rest[1..];
        if |rest| > 1 {
          assert r[1..] == rest[1..];
        }
      }
    }
  }

  /** Splitting a string that starts with a space-free word extends that word onto the first piece. */
  lemma {:induction false} SplitAfterWord(w: string, t: string)
    requires ' ' !in w
    ensures Split(w + t) == [w + Split(t)[0]] + Split(t)[1..]
  {
    var st := Split(t);
    if |w| > 0 {
      assert w[0] in w;
      SplitAfterWord(w[1..], t);
      var s := w + t;
      assert s[1..] == w[1..] + t && s[0] == w[0] != ' ';
      var rest := Split(s[1..]);
      assert rest[0] == w[1..] + st[0] && rest[1..] == st[1..] by {
        assert rest == [w[1..] + st[0]] + st[1..];
      }
      calc {
        Split(s);
        [[s[0]] + rest[0]] + rest[1..];
        { assert [w[0]] + (w[1..] + st[0]) == w + st[0]; }
        [w + st[0]] + st[1..];
      }
    } else {
      var r := Split(t);
      assert w + t == t && w + r[0] == r[0];
      assert [r[0]] + r[1..] == r;
    }
  }

  /** Splitting space-free words joined by single spaces gives the words back. */
  lemma {:induction false} SplitJoin(words: seq<string>)
    requires |words| >= 1
    requires forall i :: 0 <= i < |words| ==> ' ' !in words[i]
    ensures Split(Join(words)) == words
  {
    if |words| == 1 {
      SplitAfterWord(words[0], "");
      assert words[0] + "" == words[0];
    } else {
      var rest := Join(words[1..]);
      SplitJoin(words[1..]);
      assert Join(words) == words[0] + (" " + rest);
      SplitAfterWord(words[0], " " + rest);
      assert (" " + rest)[1..] == rest;
      assert Split(" " + rest) == [""] + words[1..];
      assert words[0] + "" == words[0];
    }
  }

  /** The pieces that have a first character. */
  function NonEmpty(pieces: seq<string>): (r: seq<string>)
  {
    Filter(pieces, (p: string) => |p| > 0)
  }

  /**
   * The first character of every piece, an empty piece contributing nothing
   * (`n[0]` is undefined and joins as ""): exactly the first characters of the
   * non-empty pieces, in order.
   */
  function Firsts(pieces: seq<string>): (r: string)
    ensures |r| <= |pieces|
    ensures (forall i :: 0 <= i < |pieces| ==> |pieces[i]| > 0) ==> |r| == |pieces|
    ensures |r| == |NonEmpty(pieces)|
    ensures forall i :: 0 <= i < |r| ==> r[i] == NonEmpty(pieces)[i][0]
  {
    if |pieces| == 0 then ""
    else (if |pieces[0]| > 0 then [pieces[0][0]] else "") + Firsts(pieces[1..])
  }

  /** The avatar fallback: `name.split(' ').map(n => n[0]).join('')`. */
  function Initials(name: string): (r: string)
    ensures ' ' !in r
    ensures |r| <= |Split(name)|
    ensures |r| == |NonEmpty(Split(name))|
    ensures forall i :: 0 <= i < |r| ==> r[i] == NonEmpty(Split(name))[i][0]
  {
    FirstsAvoidSpaces(Split(name));
    Firsts(Split(name))
  }

  lemma {:induction false} FirstsAvoidSpaces(pieces: seq<string>)
    requires forall i :: 0 <= i < |pieces| ==> ' ' !in pieces[i]
    ensures ' ' !in Firsts(pieces)
  {
    if |pieces| > 0 {
      FirstsAvoidSpaces(pieces[1..]);
      if |pieces[0]| > 0 {
        assert pieces[0][0] in pieces[0];
      }
    }
  }

  /** For non-empty space-free words joined by single spaces, the initials are the words' first letters. */
  lemma {:induction false} InitialsOfWords(words: seq<string>)
    requires |words| >= 1
    requires forall i :: 0 <= i < |words| ==> ' ' !in words[i] && |words[i]| > 0
    ensures Initials(Join(words)) == seq(|words|, i requires 0 <= i < |words| => words[i][0])
  {
    SplitJoin(words);
    FirstsOfWords(words);
  }

  lemma {:induction false} FirstsOfWords(words: seq<string>)
    requires forall i :: 0 <= i < |words| ==> |words[i]| > 0
    ensures Firsts(words) == seq(|words|, i requires 0 <= i < |words| => words[i][0])
  {
    if |words| > 0 {
      FirstsOfWords(words[1..]);
    }
  }

  /** Empty pieces make no difference: the initials of all pieces are those of the non-empty ones. */
  lemma {:induction false} FirstsSkipsEmpty(pieces: seq<string>)
    ensures Firsts(pieces) == Firsts(NonEmpty(pieces))
  {
    if |pieces| > 0 {
      FirstsSkipsEmpty(pieces[1..]);
    }
  }

  /**
   * Extra spaces add nothing: pieces joined with empty pieces among them (a
   * leading, trailing or doubled space) give the same initials as the
   * non-empty pieces joined by single spaces.
   */
  lemma InitialsIgnoreExtraSpaces(pieces: seq<string>)
    requires |pieces| >= 1
    requires forall i :: 0 <= i < |pieces| ==> ' ' !in pieces[i]
    ensures Initials(Join(pieces)) == Initials(Join(NonEmpty(pieces)))
  {
    var words := NonEmpty(pieces);
    SplitJoin(pieces);
    FirstsSkipsEmpty(pieces);
    if |words| > 0 {
      NonEmptyAvoidSpaces(pieces);
      SplitJoin(words);
      calc {
        Initials(Join(pieces));
        Firsts(pieces);
        Firsts(words);
        Initials(Join(words));
      }
    } else {
      calc {
        Initials(Join(pieces));
        Firsts(pieces);
        Firsts(words);
        "";
        { assert Split("") == [""]; }
        Initials(Join(words));
      }
    }
  }

  lemma NonEmptyAvoidSpaces(pieces: seq<string>)
    requires forall i :: 0 <= i < |pieces| ==> ' ' !in pieces[i]
    ensures forall i :: 0 <= i < |NonEmpty(pieces)| ==> ' ' !in NonEmpty(pieces)[i]
  {
    var words := NonEmpty(pieces);
    forall i | 0 <= i < |words|
      ensures ' ' !in words[i]
    {
      var j :| 0 <= j < |pieces| && pieces[j] == words[i];
    }
  }

  /** "Alex Johnson" is shown as "AJ". */
  lemma InitialsExample()
    ensures Initials("Alex Johnson") == "AJ"
  {
    var words := ["Alex", "Johnson"];
    assert Join(words) == "Alex Johnson";
    InitialsOfWords(words);
  }
}
