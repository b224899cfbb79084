/**
 * The JavaScript string operations the form handlers rely on: `trim`, the
 * "blank after trim" guard, `split` on a single character, the comma-separated
 * tag parser, ASCII case mapping and the whitespace-run slug rewrite.
 */
module Text {
  import opened Seqs

  /** ECMAScript WhiteSpace and LineTerminator code points: what `trim` strips and `\s` matches. */
  predicate IsSpace(c: char) {
    || c == ' ' || c == '\t' || c == '\n' || c == '\r'
    || c == '\U{000B}' || c == '\U{000C}' || c == '\U{00A0}' || c == '\U{1680}'
    || ('\U{2000}' <= c <= '\U{200A}')
    || c == '\U{2028}' || c == '\U{2029}' || c == '\U{202F}' || c == '\U{205F}'
    || c == '\U{3000}' || c == '\U{FEFF}'
  }

  /**
   * The no-break space, the byte-order mark and the Unicode separators count as
   * whitespace; the zero-width space, the Mongolian vowel separator and the
   * next-line control do not.
   */
  lemma WhitespaceSet()
    ensures IsSpace('\U{00A0}') && IsSpace('\U{FEFF}') && IsSpace('\U{2028}') && IsSpace('\U{3000}')
    ensures !IsSpace('\U{200B}') && !IsSpace('\U{180E}') && !IsSpace('\U{0085}')
  {
  }

  /** Every character of `s` is whitespace. */
  predicate AllSpace(s: string) {
    forall k :: 0 <= k < |s| ==> IsSpace(s[k])
  }

  /** Neither end of `s` is whitespace: what `trim` produces. */
  predicate IsTrimmed(s: string) {
    |s| == 0 || (!IsSpace(s[0]) && !IsSpace(s[|s| - 1]))
  }

  /** Leading whitespace removed; the result is a suffix and only spaces were dropped. */
  function TrimStart(s: string): (r: string)
    ensures |r| <= |s| && r == s[|s| - |r|..]
    ensures AllSpace(s[..|s| - |r|])
    ensures |r| > 0 ==> !IsSpace(r[0])
    decreases |s|
  {
    if |s| > 0 && IsSpace(s[0]) then TrimStart(s[1..]) else s
  }

  /** Trailing whitespace removed; the result is a prefix and only spaces were dropped. */
  function TrimEnd(s: string): (r: string)
    ensures |r| <= |s| && r == s[..|r|]
    ensures AllSpace(s[|r|..])
    ensures |r| > 0 ==> !IsSpace(r[|r| - 1])
    decreases |s|
  {
    if |s| > 0 && IsSpace(s[|s| - 1]) then TrimEnd(s[..|s| - 1]) else s
  }

  /** `String.prototype.trim`. */
  function Trim(s: string): (r: string)
    ensures IsTrimmed(r)
    ensures |r| <= |TrimStart(s)| && r == TrimStart(s)[..|r|]
    ensures AllSpace(TrimStart(s)[|r|..])
  {
    var t := TrimStart(s);
    var r := TrimEnd(t);
    assert |r| > 0 ==> r[0] == t[0];
    r
  }

  /** `!s.trim()`: the guard every form handler applies to its required fields. */
  predicate IsBlank(s: string) {
    Trim(s) == ""
  }

  /** A string is blank exactly when it consists of whitespace only. */
  lemma BlankIffAllSpace(s: string)
    ensures IsBlank(s) <==> AllSpace(s)
  {
    var t := TrimStart(s);
    if AllSpace(s) {
      TrimStartOfSpaces(s);
    }
    if IsBlank(s) {
      assert AllSpace(t[0..]);
      assert |t| == 0;
      assert s[..|s|] == s;
    }
  }

  /** Leading-space removal consumes an all-whitespace string entirely. */
  lemma {:induction false} TrimStartOfSpaces(s: string)
    requires AllSpace(s)
    ensures TrimStart(s) == ""
    decreases |s|
  {
    if |s| > 0 {
      assert IsSpace(s[0]);
      assert AllSpace(s[1..]) by {
        forall k | 0 <= k < |s| - 1 ensures IsSpace(s[1..][k]) {
          assert s[1..][k] == s[k + 1];
        }
      }
      TrimStartOfSpaces(s[1..]);
    }
  }

  /** Trimming only removes characters: a character absent from `s` is absent from its trim. */
  lemma TrimKeepsAbsent(s: string, c: char)
    requires c !in s
    ensures c !in Trim(s)
  {
    var t := TrimStart(s);
    DropAvoids(s, c, |s| - |t|);
    TakeAvoids(t, c, |Trim(s)|);
  }

  /** A suffix of a string without `c` has no `c`. */
  lemma DropAvoids(s: string, c: char, i: nat)
    requires c !in s && i <= |s|
    ensures c !in s[i..]
  {
    assert forall k :: 0 <= k < |s[i..]| ==> s[i..][k] == s[i + k];
  }

  /** A prefix of a string without `c` has no `c`. */
  lemma TakeAvoids(s: string, c: char, j: nat)
    requires c !in s && j <= |s|
    ensures c !in s[..j]
  {
    assert forall k :: 0 <= k < j ==> s[..j][k] == s[k];
  }

  /** A string with no whitespace at either end is its own trim. */
  lemma TrimOfTrimmed(s: string)
    requires IsTrimmed(s)
    ensures Trim(s) == s
  {
    assert TrimStart(s) == s;
  }

  /** Trimming twice is trimming once. */
  lemma TrimIdempotent(s: string)
    ensures Trim(Trim(s)) == Trim(s)
  {
    TrimOfTrimmed(Trim(s));
  }

  /** `s.split(sep)` for a one-character separator: always at least one piece, none holding `sep`. */
  function Split(s: string, sep: char): (parts: seq<string>)
    ensures |parts| >= 1
    decreases |s|
  {
    if |s| == 0 then [""]
    else if s[0] == sep then [""] + Split(s[1..], sep)
    else
      var rest := Split(s[1..], sep);
      [[s[0]] + rest[0]] + rest[1..]
  }

  /** No piece of a split contains the separator. */
  lemma {:induction false} PiecesAvoidSeparator(s: string, sep: char)
    ensures forall i :: 0 <= i < |Split(s, sep)| ==> sep !in Split(s, sep)[i]
    decreases |s|
  {
    if |s| > 0 {
      var rest := Split(s[1..], sep);
      PiecesAvoidSeparator(s[1..], sep);
      if s[0] == sep {
        ConcatAvoids([""], rest, sep);
      } else {
        assert sep !in [s[0]] + rest[0];
        ConcatAvoids([[s[0]] + rest[0]], rest[1..], sep);
      }
    }
  }

  /** `parts.join(sep)` for a one-character separator. */
  function Join(parts: seq<string>, sep: char): string
    decreases |parts|
  {
    if |parts| == 0 then ""
    else if |parts| == 1 then parts[0]
    else parts[0] + [sep] + Join(parts[1..], sep)
  }

  /** Splitting and re-joining on the same separator gives back the input. */
  lemma {:induction false} JoinOfSplit(s: string, sep: char)
    ensures Join(Split(s, sep), sep) == s
    decreases |s|
  {
    if |s| > 0 {
      var rest := Split(s[1..], sep);
      JoinOfSplit(s[1..], sep);
      assert s == [s[0]] + s[1..];
      if s[0] == sep {
        assert Split(s, sep) == [""] + rest;
        JoinCons("", rest, sep);
      } else {
        assert Split(s, sep) == [[s[0]] + rest[0]] + rest[1..];
        JoinExtendFirst(s[0], rest, sep);
      }
    }
  }

  /** Joining a list with one more piece in front. */
  lemma JoinCons(head: string, parts: seq<string>, sep: char)
    requires |parts| >= 1
    ensures Join([head] + parts, sep) == head + [sep] + Join(parts, sep)
  {
    assert ([head] + parts)[1..] == parts;
  }

  /** Joining a list whose first piece is extended by one character at its front. */
  lemma JoinExtendFirst(c: char, parts: seq<string>, sep: char)
    requires |parts| >= 1
    ensures Join([[c] + parts[0]] + parts[1..], sep) == [c] + Join(parts, sep)
  {
    var q := [[c] + parts[0]] + parts[1..];
    if |parts| > 1 {
      assert q[1..] == parts[1..];
      assert Join(q, sep) == ([c] + parts[0]) + [sep] + Join(parts[1..], sep);
      assert Join(parts, sep) == parts[0] + [sep] + Join(parts[1..], sep);
    }
  }


  /** A separator-free prefix is glued onto the first piece of whatever follows it. */
  lemma {:induction false} SplitOfPrefix(p: string, q: string, sep: char)
    requires sep !in p
    ensures Split(p + q, sep) == [p + Split(q, sep)[0]] + Split(q, sep)[1..]
    decreases |p|
  {
    if |p| > 0 {
      var s := p + q;
      var parts := Split(q, sep);
      assert s[0] == p[0] && s[1..] == p[1..] + q;
      SplitOfPrefix(p[1..], q, sep);
      SplitOfNonSepHead(s, sep);
      assert [p[0]] + (p[1..] + parts[0]) == p + parts[0];
    } else {
      var parts := Split(q, sep);
      assert p + q == q;
      assert p + parts[0] == parts[0];
      assert parts == [parts[0]] + parts[1..];
    }
  }

  /** A first character other than the separator starts the first piece. */
  lemma SplitOfNonSepHead(s: string, sep: char)
    requires |s| > 0 && s[0] != sep
    ensures Split(s, sep) == [[s[0]] + Split(s[1..], sep)[0]] + Split(s[1..], sep)[1..]
  {
  }

  /** Joining separator-free pieces and splitting again gives back the pieces. */
  lemma {:induction false} SplitOfJoin(parts: seq<string>, sep: char)
    requires |parts| >= 1
    requires forall i :: 0 <= i < |parts| ==> sep !in parts[i]
    ensures Split(Join(parts, sep), sep) == parts
    decreases |parts|
  {
    if |parts| == 1 {
      SplitOfPrefix(parts[0], "", sep);
      assert parts[0] + "" == parts[0];
    } else {
      var tail := Join(parts[1..], sep);
      SplitOfJoin(parts[1..], sep);
      assert parts[0] + [sep] + tail == parts[0] + ([sep] + tail);
      SplitOfPrefix(parts[0], [sep] + tail, sep);
      assert ([sep] + tail)[1..] == tail;
      assert Split([sep] + tail, sep) == [""] + parts[1..];
      assert parts[0] + "" == parts[0];
    }
  }

  /** Trim every piece and keep the non-empty ones, in order. */
  function TrimNonEmpty(pieces: seq<string>): (tags: seq<string>)
    ensures |tags| <= |pieces|
    decreases |pieces|
  {
    if |pieces| == 0 then []
    else
      var t := Trim(pieces[0]);
      (if t == "" then [] else [t]) + TrimNonEmpty(pieces[1..])
  }

  /** Every kept tag is non-empty and has no whitespace at either end. */
  lemma {:induction false} KeptTagsClean(pieces: seq<string>)
    ensures forall i :: 0 <= i < |TrimNonEmpty(pieces)| ==>
      TrimNonEmpty(pieces)[i] != "" && IsTrimmed(TrimNonEmpty(pieces)[i])
    decreases |pieces|
  {
    if |pieces| > 0 {
      KeptTagsClean(pieces[1..]);
      var t := Trim(pieces[0]);
      var head: seq<string> := if t == "" then [] else [t];
      ConcatClean(head, TrimNonEmpty(pieces[1..]));
    }
  }

  /** Two lists of non-empty trimmed strings concatenate to one. */
  lemma ConcatClean(a: seq<string>, b: seq<string>)
    requires forall i :: 0 <= i < |a| ==> a[i] != "" && IsTrimmed(a[i])
    requires forall i :: 0 <= i < |b| ==> b[i] != "" && IsTrimmed(b[i])
    ensures forall i :: 0 <= i < |a + b| ==> (a + b)[i] != "" && IsTrimmed((a + b)[i])
  {
  }

  /** `input.split(',').map(t => t.trim()).filter(t => t)`. */
  function ParseTags(input: string): (tags: seq<string>)
    ensures forall i :: 0 <= i < |tags| ==> tags[i] != "" && IsTrimmed(tags[i]) && ',' !in tags[i]
  {
    var pieces := Split(input, ',');
    PiecesAvoidSeparator(input, ',');
    TagsFromSeparatorFree(pieces);
    KeptTagsClean(pieces);
    TrimNonEmpty(pieces)
  }

  /** Trimming a piece cannot introduce a character that was not there. */
  lemma {:induction false} TagsFromSeparatorFree(pieces: seq<string>)
    requires forall i :: 0 <= i < |pieces| ==> ',' !in pieces[i]
    ensures forall i :: 0 <= i < |TrimNonEmpty(pieces)| ==> ',' !in TrimNonEmpty(pieces)[i]
    decreases |pieces|
  {
    if |pieces| > 0 {
      TagsFromSeparatorFree(pieces[1..]);
      TrimKeepsAbsent(pieces[0], ',');
      var t := Trim(pieces[0]);
      var head: seq<string> := if t == "" then [] else [t];
      ConcatAvoids(head, TrimNonEmpty(pieces[1..]), ',');
    }
  }

  /** If no string of either list contains `c`, none of their concatenation does. */
  lemma ConcatAvoids(a: seq<string>, b: seq<string>, c: char)
    requires forall i :: 0 <= i < |a| ==> c !in a[i]
    requires forall i :: 0 <= i < |b| ==> c !in b[i]
    ensures forall i :: 0 <= i < |a + b| ==> c !in (a + b)[i]
  {
  }

  /** The tags are the trimmed pieces of the input, in input order, blanks dropped. */
  lemma {:induction false} TagsFollowInputOrder(pieces: seq<string>)
    ensures IsSubsequence(TrimNonEmpty(pieces), Trimmed(pieces))
    decreases |pieces|
  {
    if |pieces| > 0 {
      var rest := pieces[1..];
      TagsFollowInputOrder(rest);
      var t := Trim(pieces[0]);
      TrimmedCons(pieces);
      if t == "" {
        assert TrimNonEmpty(pieces) == TrimNonEmpty(rest);
        SubsequenceSkip(t, TrimNonEmpty(rest), Trimmed(rest));
      } else {
        assert TrimNonEmpty(pieces) == [t] + TrimNonEmpty(rest);
        SubsequenceCons(t, TrimNonEmpty(rest), Trimmed(rest));
      }
    }
  }

  /** Each non-empty trimmed piece is kept exactly as many times as it occurs, and the empty string never. */
  lemma {:induction false} KeptCounts(pieces: seq<string>)
    ensures multiset(TrimNonEmpty(pieces)) == multiset(Trimmed(pieces))["" := 0]
    decreases |pieces|
  {
    if |pieces| == 0 {
      assert Trimmed(pieces) == [];
    } else {
      KeptCounts(pieces[1..]);
      TrimmedCons(pieces);
      ConsWithoutBlank(Trim(pieces[0]), TrimNonEmpty(pieces[1..]), Trimmed(pieces[1..]));
    }
  }

  /** Putting `t` in front keeps the counts agreeing once blanks are discounted. */
  lemma ConsWithoutBlank(t: string, kept: seq<string>, all: seq<string>)
    requires multiset(kept) == multiset(all)["" := 0]
    ensures multiset((if t == "" then [] else [t]) + kept) == multiset([t] + all)["" := 0]
  {
  }

  /** Trimming every piece, seen one piece at a time. */
  lemma TrimmedCons(pieces: seq<string>)
    requires |pieces| > 0
    ensures Trimmed(pieces) == [Trim(pieces[0])] + Trimmed(pieces[1..])
  {
    ConsOfElements(Trimmed(pieces), Trim(pieces[0]), Trimmed(pieces[1..]));
  }

  /** A list whose first element is `h` and whose later elements are those of `t` is `[h] + t`. */
  lemma ConsOfElements(a: seq<string>, h: string, t: seq<string>)
    requires |a| == |t| + 1 && a[0] == h
    requires forall i :: 1 <= i < |a| ==> a[i] == t[i - 1]
    ensures a == [h] + t
  {
    assert forall i :: 0 <= i < |a| ==> a[i] == ([h] + t)[i];
  }


  /**
   * The parsed tags are the trimmed comma-separated pieces of the input, in
   * input order, each as often as it occurs, blanks dropped.
   */
  lemma ParseTagsInInputOrder(input: string)
    ensures IsSubsequence(ParseTags(input), Trimmed(Split(input, ',')))
    ensures forall i :: 0 <= i < |Split(input, ',')| && Trim(Split(input, ',')[i]) != "" ==>
      Trim(Split(input, ',')[i]) in ParseTags(input)
    ensures multiset(ParseTags(input)) == multiset(Trimmed(Split(input, ',')))["" := 0]
  {
    TagsFollowInputOrder(Split(input, ','));
    KeptCounts(Split(input, ','));
    NonBlankPiecesKept(Split(input, ','));
  }

  /** No piece that is non-blank after trimming is dropped. */
  lemma {:induction false} NonBlankPiecesKept(pieces: seq<string>)
    ensures forall i :: 0 <= i < |pieces| && Trim(pieces[i]) != "" ==> Trim(pieces[i]) in TrimNonEmpty(pieces)
    decreases |pieces|
  {
    if |pieces| > 0 {
      var rest := pieces[1..];
      NonBlankPiecesKept(rest);
      var t := Trim(pieces[0]);
      var head: seq<string> := if t == "" then [] else [t];
      assert TrimNonEmpty(pieces) == head + TrimNonEmpty(rest);
      forall i | 0 <= i < |pieces| && Trim(pieces[i]) != ""
        ensures Trim(pieces[i]) in TrimNonEmpty(pieces)
      {
        if i > 0 {
          assert pieces[i] == rest[i - 1];
        }
      }
    }
  }

  /** Every piece trimmed, blanks kept. */
  function Trimmed(pieces: seq<string>): (r: seq<string>)
    ensures |r| == |pieces|
    ensures forall i :: 0 <= i < |r| ==> r[i] == Trim(pieces[i])
  {
    seq(|pieces|, i requires 0 <= i < |pieces| => Trim(pieces[i]))
  }

  /** Tags written back as a comma-separated list parse to themselves. */
  lemma ParseTagsOfJoin(tags: seq<string>)
    requires forall i :: 0 <= i < |tags| ==> tags[i] != "" && IsTrimmed(tags[i]) && ',' !in tags[i]
    ensures ParseTags(Join(tags, ',')) == tags
  {
    if |tags| == 0 {
      assert Split("", ',') == [""];
    } else {
      SplitOfJoin(tags, ',');
      CleanPiecesSurvive(tags);
    }
  }

  /** Non-blank pieces that are already trimmed pass through unchanged. */
  lemma {:induction false} CleanPiecesSurvive(pieces: seq<string>)
    requires forall i :: 0 <= i < |pieces| ==> pieces[i] != "" && IsTrimmed(pieces[i])
    ensures TrimNonEmpty(pieces) == pieces
    decreases |pieces|
  {
    if |pieces| > 0 {
      var rest := pieces[1..];
      assert forall i :: 0 <= i < |rest| ==> rest[i] == pieces[i + 1];
      TrimOfTrimmed(pieces[0]);
      CleanPiecesSurvive(rest);
      var t := Trim(pieces[0]);
      assert t == pieces[0] && t != "";
      assert TrimNonEmpty(pieces) == [t] + TrimNonEmpty(rest);
      assert pieces == [pieces[0]] + rest;
    }
  }

  /** ASCII `toLowerCase` of one character. */
  function LowerChar(c: char): char {
    if 'A' <= c <= 'Z' then (c as int + 32) as char else c
  }

  /** ASCII `toUpperCase` of one character. */
  function UpperChar(c: char): char {
    if 'a' <= c <= 'z' then (c as int - 32) as char else c
  }

  /** `s.toLowerCase()` restricted to ASCII: each capital moves to its small letter, everything else stays. */
  function ToLower(s: string): (r: string)
    ensures |r| == |s|
    ensures forall i :: 0 <= i < |r| ==> !('A' <= r[i] <= 'Z')
    ensures forall i :: 0 <= i < |r| ==> (IsSpace(r[i]) <==> IsSpace(s[i]))
    ensures forall i :: 0 <= i < |s| && !('A' <= s[i] <= 'Z') ==> r[i] == s[i]
    ensures forall i :: 0 <= i < |s| && 'A' <= s[i] <= 'Z' ==> r[i] as int == s[i] as int + 32
  {
    seq(|s|, i requires 0 <= i < |s| => LowerChar(s[i]))
  }

  /** `s.toUpperCase()` restricted to ASCII: each small letter moves to its capital, everything else stays. */
  function ToUpper(s: string): (r: string)
    ensures |r| == |s|
    ensures forall i :: 0 <= i < |r| ==> !('a' <= r[i] <= 'z')
    ensures forall i :: 0 <= i < |s| && !('a' <= s[i] <= 'z') ==> r[i] == s[i]
    ensures forall i :: 0 <= i < |s| && 'a' <= s[i] <= 'z' ==> r[i] as int == s[i] as int - 32
  {
    seq(|s|, i requires 0 <= i < |s| => UpperChar(s[i]))
  }

  /** The longest whitespace prefix of `s` removed. */
  function DropSpaces(s: string): (r: string)
    ensures |r| <= |s| && r == s[|s| - |r|..]
    ensures |r| > 0 ==> !IsSpace(r[0])
    decreases |s|
  {
    if |s| > 0 && IsSpace(s[0]) then DropSpaces(s[1..]) else s
  }

  /** `s.replace(/\s+/g, dash)`: every maximal whitespace run becomes one `dash`. */
  function CollapseSpaces(s: string, dash: char): (r: string)
    requires !IsSpace(dash)
    ensures |r| <= |s|
    ensures forall i :: 0 <= i < |r| ==> !IsSpace(r[i])
    decreases |s|
  {
    if |s| == 0 then ""
    else if IsSpace(s[0]) then [dash] + CollapseSpaces(DropSpaces(s), dash)
    else [s[0]] + CollapseSpaces(s[1..], dash)
  }

  /** A string holding no whitespace is left alone. */
  lemma {:induction false} CollapseWithoutSpaces(s: string, dash: char)
    requires !IsSpace(dash)
    requires forall i :: 0 <= i < |s| ==> !IsSpace(s[i])
    ensures CollapseSpaces(s, dash) == s
    decreases |s|
  {
    if |s| > 0 {
      CollapseWithoutSpaces(s[1..], dash);
      assert s == [s[0]] + s[1..];
    }
  }

  /** A whitespace-free prefix is copied through. */
  lemma {:induction false} CollapseOfPrefix(w: string, t: string, dash: char)
    requires !IsSpace(dash)
    requires forall i :: 0 <= i < |w| ==> !IsSpace(w[i])
    ensures CollapseSpaces(w + t, dash) == w + CollapseSpaces(t, dash)
    decreases |w|
  {
    if |w| > 0 {
      var s := w + t;
      assert s[0] == w[0] && s[1..] == w[1..] + t;
      CollapseOfNonSpaceHead(s, dash);
      CollapseOfPrefix(w[1..], t, dash);
      assert [w[0]] + (w[1..] + CollapseSpaces(t, dash)) == w + CollapseSpaces(t, dash);
    } else {
      assert w + t == t;
    }
  }

  /** A non-space first character is copied through. */
  lemma CollapseOfNonSpaceHead(s: string, dash: char)
    requires !IsSpace(dash)
    requires |s| > 0 && !IsSpace(s[0])
    ensures CollapseSpaces(s, dash) == [s[0]] + CollapseSpaces(s[1..], dash)
  {
  }

  /** Words separated by single spaces come out separated by single dashes. */
  lemma {:induction false} CollapseOfSpacedWords(words: seq<string>, dash: char)
    requires !IsSpace(dash)
    requires |words| >= 1
    requires forall i :: 0 <= i < |words| ==> words[i] != "" && forall k :: 0 <= k < |words[i]| ==> !IsSpace(words[i][k])
    ensures CollapseSpaces(Join(words, ' '), dash) == Join(words, dash)
    decreases |words|
  {
    if |words| == 1 {
      CollapseWithoutSpaces(words[0], dash);
    } else {
      var w := words[0];
      var rest := words[1..];
      var tail := Join(rest, ' ');
      assert Join(words, ' ') == w + ([' '] + tail);
      assert Join(words, dash) == w + ([dash] + Join(rest, dash));
      CollapseOfSpacedWords(rest, dash);
      CollapseOfPrefix(w, [' '] + tail, dash);
      JoinStartsWith(rest, ' ');
      CollapseAfterSpace(tail, dash);
    }
  }

  /** A single space before a non-space character becomes a single dash. */
  lemma CollapseAfterSpace(tail: string, dash: char)
    requires !IsSpace(dash)
    requires |tail| > 0 && !IsSpace(tail[0])
    ensures CollapseSpaces([' '] + tail, dash) == [dash] + CollapseSpaces(tail, dash)
  {
    var s := [' '] + tail;
    assert s[1..] == tail;
    assert DropSpaces(s) == DropSpaces(tail);
  }


  /** `runs[0] + words[0] + runs[1] + … + words[n - 1] + runs[n]`: words with a run before, between and after them. */
  function Interleave(runs: seq<string>, words: seq<string>): string
    requires |runs| == |words| + 1
    decreases |words|
  {
    if |words| == 0 then runs[0]
    else runs[0] + words[0] + Interleave(runs[1..], words[1..])
  }

  /** Each non-empty run replaced by one `dash`, each empty run kept empty. */
  function Dashes(runs: seq<string>, dash: char): (r: seq<string>)
    ensures |r| == |runs|
    ensures forall i :: 0 <= i < |runs| ==> r[i] == if runs[i] == "" then "" else [dash]
  {
    seq(|runs|, i requires 0 <= i < |runs| => if runs[i] == "" then "" else [dash])
  }

  /** A non-empty string with no whitespace in it. */
  predicate IsWord(w: string) {
    w != "" && forall k :: 0 <= k < |w| ==> !IsSpace(w[k])
  }

  /**
   * The general shape of `replace(/\s+/g, dash)`: a string cut into words and
   * whitespace runs (any run may be empty, including the outer ones) keeps its
   * words and turns every non-empty run into exactly one `dash`.
   */
  lemma {:induction false} CollapseOfWordsAndRuns(runs: seq<string>, words: seq<string>, dash: char)
    requires !IsSpace(dash)
    requires |runs| == |words| + 1
    requires forall i :: 0 <= i < |runs| ==> AllSpace(runs[i])
    requires forall i :: 0 <= i < |words| ==> IsWord(words[i])
    ensures CollapseSpaces(Interleave(runs, words), dash) == Interleave(Dashes(runs, dash), words)
    decreases |words|
  {
    var ds := Dashes(runs, dash);
    if |words| == 0 {
      CollapseOfRun(runs[0], "", dash);
      assert runs[0] + "" == runs[0];
    } else {
      var w := words[0];
      var tail := Interleave(runs[1..], words[1..]);
      CollapseOfWordsAndRuns(runs[1..], words[1..], dash);
      assert ds[1..] == Dashes(runs[1..], dash);
      CollapseOfPrefix(w, tail, dash);
      assert (w + tail)[0] == w[0];
      CollapseOfRun(runs[0], w + tail, dash);
      InterleaveCons(runs, words);
      InterleaveCons(ds, words);
    }
  }

  /** The first run and word of an interleaving, split off. */
  lemma InterleaveCons(runs: seq<string>, words: seq<string>)
    requires |runs| == |words| + 1 && |words| > 0
    ensures Interleave(runs, words) == runs[0] + (words[0] + Interleave(runs[1..], words[1..]))
  {
  }

  /** A whitespace run, empty or not, followed by the end or by a non-space character becomes at most one dash. */
  lemma CollapseOfRun(run: string, t: string, dash: char)
    requires !IsSpace(dash)
    requires AllSpace(run)
    requires |t| == 0 || !IsSpace(t[0])
    ensures CollapseSpaces(run + t, dash) == (if run == "" then "" else [dash]) + CollapseSpaces(t, dash)
  {
    if run == "" {
      assert run + t == t;
    } else {
      DropSpacesOfRun(run, t);
    }
  }

  /** Dropping leading whitespace removes exactly a whitespace run that the next character ends. */
  lemma {:induction false} DropSpacesOfRun(run: string, t: string)
    requires AllSpace(run)
    requires |t| == 0 || !IsSpace(t[0])
    ensures DropSpaces(run + t) == t
    decreases |run|
  {
    if |run| > 0 {
      assert (run + t)[1..] == run[1..] + t;
      DropSpacesOfRun(run[1..], t);
    } else {
      assert run + t == t;
    }
  }

  /** Capital-free words with whitespace runs between them hold no capital. */
  lemma {:induction false} NoCapitalsInterleave(runs: seq<string>, words: seq<string>)
    requires |runs| == |words| + 1
    requires forall i :: 0 <= i < |runs| ==> AllSpace(runs[i])
    requires forall i :: 0 <= i < |words| ==> NoCapitals(words[i])
    ensures NoCapitals(Interleave(runs, words))
    decreases |words|
  {
    assert NoCapitals(runs[0]) by {
      assert forall k :: 0 <= k < |runs[0]| ==> IsSpace(runs[0][k]);
    }
    if |words| > 0 {
      NoCapitalsInterleave(runs[1..], words[1..]);
      InterleaveCons(runs, words);
      NoCapitalsConcat(words[0], Interleave(runs[1..], words[1..]));
      NoCapitalsConcat(runs[0], words[0] + Interleave(runs[1..], words[1..]));
    }
  }

  /** Two capital-free strings concatenate to one. */
  lemma NoCapitalsConcat(a: string, b: string)
    requires NoCapitals(a) && NoCapitals(b)
    ensures NoCapitals(a + b)
  {
    assert forall i :: 0 <= i < |a + b| ==> (a + b)[i] == if i < |a| then a[i] else b[i - |a|];
  }

  /** A join of non-empty words starts with the first word's first character. */
  lemma JoinStartsWith(words: seq<string>, sep: char)
    requires |words| >= 1 && words[0] != ""
    ensures |Join(words, sep)| > 0 && Join(words, sep)[0] == words[0][0]
  {
  }

  /** `s` holds no ASCII capital letter. */
  predicate NoCapitals(s: string) {
    forall i :: 0 <= i < |s| ==> !('A' <= s[i] <= 'Z')
  }

  /** Lower-casing a string without capitals changes nothing. */
  lemma ToLowerOfNoCapitals(s: string)
    requires NoCapitals(s)
    ensures ToLower(s) == s
  {
  }

  /** Joining capital-free words with a capital-free separator gives a capital-free string. */
  lemma {:induction false} NoCapitalsJoin(words: seq<string>, sep: char)
    requires !('A' <= sep <= 'Z')
    requires forall i :: 0 <= i < |words| ==> NoCapitals(words[i])
    ensures NoCapitals(Join(words, sep))
    decreases |words|
  {
    if |words| > 1 {
      NoCapitalsJoin(words[1..], sep);
      var t := Join(words[1..], sep);
      var j := Join(words, sep);
      assert j == words[0] + [sep] + t;
      forall i | 0 <= i < |j|
        ensures !('A' <= j[i] <= 'Z')
      {
        if i < |words[0]| {
          assert j[i] == words[0][i];
        } else if i == |words[0]| {
          assert j[i] == sep;
        } else {
          assert j[i] == t[i - |words[0]| - 1];
        }
      }
    }
  }

  /** A string without the separator splits into itself alone. */
  lemma SplitWithoutSep(s: string, sep: char)
    ensures sep !in s ==> Split(s, sep) == [s]
  {
    if sep !in s {
      SplitOfJoin([s], sep);
    }
  }
}
