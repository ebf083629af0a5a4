/** File names for saved projects. The client name is cleaned by the program's
    two regular-expression passes (Go RE2, where `\w` is
    `[0-9A-Za-z_]` and `\s` is `[\t\n\f\r ]`): every character other than a
    word character, a whitespace character, `.` or `-` is deleted, the result
    is trimmed, and each run of whitespace becomes one space. */
module ProjectFile {
  import opened Wrappers
  import opened ProjectModels

  /** RE2's `\w`. */
  predicate IsWordChar(c: char) {
    ('0' <= c <= '9') || ('A' <= c <= 'Z') || ('a' <= c <= 'z') || c == '_'
  }

  /** RE2's `\s`: tab, newline, form feed, carriage return, space. */
  predicate IsRegexSpace(c: char) {
    c == '\t' || c == '\n' || c == '\U{000C}' || c == '\r' || c == ' '
  }

  /** The ASCII whitespace strings.TrimSpace removes: RE2's `\s` and the
      vertical tab. */
  predicate IsAsciiSpace(c: char) {
    IsRegexSpace(c) || c == '\U{000B}'
  }

  /** The characters the pattern `[^\w\s.-]` does not delete. */
  predicate IsKeptChar(c: char) {
    IsWordChar(c) || IsRegexSpace(c) || c == '.' || c == '-'
  }

  /** The characters a cleaned name may contain. */
  predicate IsFilenameChar(c: char) {
    IsWordChar(c) || c == ' ' || c == '.' || c == '-'
  }

  /** A cleaned name: only file-name characters, no space at either end and
      never two spaces in a row. */
  ghost predicate IsClean(s: string) {
    && (forall i :: 0 <= i < |s| ==> IsFilenameChar(s[i]))
    && (|s| > 0 ==> s[0] != ' ' && s[|s| - 1] != ' ')
    && NoDoubleSpaces(s)
  }

  ghost predicate NoDoubleSpaces(s: string) {
    forall i :: 0 <= i < |s| - 1 ==> !(s[i] == ' ' && s[i + 1] == ' ')
  }

  /** The first pass: deletes every character outside `[\w\s.-]`, keeping
      the others in order. */
  function RemoveDisallowed(s: string): (r: string)
    ensures |r| <= |s|
    ensures forall i :: 0 <= i < |r| ==> IsKeptChar(r[i])
    ensures (forall i :: 0 <= i < |s| ==> IsKeptChar(s[i])) ==> r == s
    ensures |r| == 0 <==> forall i :: 0 <= i < |s| ==> !IsKeptChar(s[i])
    ensures |s| == 1 ==> r == (if IsKeptChar(s[0]) then s else [])
  {
    if |s| == 0 then []
    else if IsKeptChar(s[0]) then [s[0]] + RemoveDisallowed(s[1..])
    else RemoveDisallowed(s[1..])
  }

  /** The first pass works character by character: cleaning a concatenation
      cleans each part. With the one-character case above, this fixes the
      result as the kept characters of the input, in their order. */
  lemma {:induction false} RemoveDisallowedAppend(a: string, b: string)
    ensures RemoveDisallowed(a + b) == RemoveDisallowed(a) + RemoveDisallowed(b)
    decreases |a|
  {
    if |a| == 0 {
      assert a + b == b;
    } else {
      assert (a + b)[0] == a[0];
      assert (a + b)[1..] == a[1..] + b;
      RemoveDisallowedAppend(a[1..], b);
    }
  }

  /** The characters of `s` other than RE2 whitespace, in order. */
  function NonSpaces(s: string): string {
    if |s| == 0 then []
    else if IsRegexSpace(s[0]) then NonSpaces(s[1..])
    else [s[0]] + NonSpaces(s[1..])
  }

  lemma {:induction false} NonSpacesAppend(a: string, b: string)
    ensures NonSpaces(a + b) == NonSpaces(a) + NonSpaces(b)
    decreases |a|
  {
    if |a| == 0 {
      assert a + b == b;
    } else {
      assert (a + b)[0] == a[0];
      assert (a + b)[1..] == a[1..] + b;
      NonSpacesAppend(a[1..], b);
    }
  }

  /** `r` is `s[i..j]` and everything of `s` outside that slice is ASCII
      whitespace. */
  ghost predicate IsTrimOf(s: string, r: string, i: int, j: int) {
    && 0 <= i <= j <= |s| && r == s[i..j]
    && (forall k :: 0 <= k < i ==> IsAsciiSpace(s[k]))
    && (forall k :: j <= k < |s| ==> IsAsciiSpace(s[k]))
  }

  /** The number of ASCII whitespace characters `s` starts with. */
  function LeadingSpaces(s: string): (n: nat)
    ensures n <= |s|
    ensures forall k :: 0 <= k < n ==> IsAsciiSpace(s[k])
    ensures n < |s| ==> !IsAsciiSpace(s[n])
    decreases |s|
  {
    if |s| > 0 && IsAsciiSpace(s[0]) then
      var m := LeadingSpaces(s[1..]);
      assert forall k :: 1 <= k < m + 1 ==> s[k] == s[1..][k - 1];
      m + 1
    else 0
  }

  /** The number of ASCII whitespace characters `s` ends with. */
  function TrailingSpaces(s: string): (n: nat)
    ensures n <= |s|
    ensures forall k :: |s| - n <= k < |s| ==> IsAsciiSpace(s[k])
    ensures n < |s| ==> !IsAsciiSpace(s[|s| - 1 - n])
    decreases |s|
  {
    if |s| > 0 && IsAsciiSpace(s[|s| - 1]) then
      var m := TrailingSpaces(s[..|s| - 1]);
      assert forall k :: |s| - 1 - m <= k < |s| - 1 ==> s[k] == s[..|s| - 1][k];
      m + 1
    else 0
  }

  /** Where the trimmed slice ends: before the trailing whitespace, or at
      the end when the string is whitespace only. */
  function TrimEnd(s: string): (j: nat)
    ensures LeadingSpaces(s) <= j <= |s|
    ensures forall k :: j <= k < |s| ==> IsAsciiSpace(s[k])
    ensures LeadingSpaces(s) < j ==> !IsAsciiSpace(s[j - 1])
  {
    if LeadingSpaces(s) == |s| then |s| else |s| - TrailingSpaces(s)
  }

  /** strings.TrimSpace on a string that holds ASCII whitespace only: the
      result is a slice of the input with only whitespace cut from either
      end, and it neither starts nor ends with whitespace. */
  function TrimSpace(s: string): (r: string)
    ensures IsTrimOf(s, r, LeadingSpaces(s), TrimEnd(s))
    ensures |r| > 0 ==> !IsAsciiSpace(r[0]) && !IsAsciiSpace(r[|r| - 1])
    ensures (|s| == 0 || (!IsAsciiSpace(s[0]) && !IsAsciiSpace(s[|s| - 1]))) ==> r == s
  {
    s[LeadingSpaces(s)..TrimEnd(s)]
  }

  /** Every character of `s` is RE2 whitespace. */
  ghost predicate AllSpaces(s: string) {
    forall k :: 0 <= k < |s| ==> IsRegexSpace(s[k])
  }

  /** Drops the leading run of whitespace. */
  function DropSpaces(s: string): (r: string)
    ensures |r| <= |s| && r == s[|s| - |r|..]
    ensures |r| > 0 ==> !IsRegexSpace(r[0])
    ensures |s| > 0 && IsRegexSpace(s[0]) ==> |r| < |s|
    ensures |s| > 0 && !IsRegexSpace(s[|s| - 1]) ==> |r| > 0
    ensures r == [] <==> AllSpaces(s)
    ensures NonSpaces(r) == NonSpaces(s)
  {
    if |s| > 0 && IsRegexSpace(s[0]) then DropSpaces(s[1..]) else s
  }

  /** The second pass: every maximal run of whitespace becomes one space.
      The other characters come through unchanged and in order; a string of
      whitespace alone becomes a single space. */
  function CollapseSpaces(s: string): (r: string)
    ensures forall i :: 0 <= i < |r| ==> r[i] == ' ' || (r[i] in s && !IsRegexSpace(r[i]))
    ensures NoDoubleSpaces(r)
    ensures NonSpaces(r) == NonSpaces(s)
    ensures |s| > 0 && AllSpaces(s) ==> r == " "
    ensures |s| == 1 && !IsRegexSpace(s[0]) ==> r == s
    ensures |s| > 0 && !IsRegexSpace(s[0]) ==> |r| > 0 && r[0] == s[0]
    ensures |s| > 0 && !IsRegexSpace(s[|s| - 1]) ==> |r| > 0 && r[|r| - 1] == s[|s| - 1]
    decreases |s|
  {
    if |s| == 0 then []
    else if IsRegexSpace(s[0]) then
      var rest := CollapseSpaces(DropSpaces(s));
      assert ([' '] + rest)[1..] == rest;
      [' '] + rest
    else
      var rest := CollapseSpaces(s[1..]);
      assert ([s[0]] + rest)[1..] == rest;
      [s[0]] + rest
  }

  /** Dropping leading whitespace from a concatenation: when the first part
      is not all whitespace only that part loses its head. */
  lemma {:induction false} DropSpacesAppend(a: string, b: string)
    ensures !AllSpaces(a) ==> DropSpaces(a + b) == DropSpaces(a) + b
    ensures AllSpaces(a) ==> DropSpaces(a + b) == DropSpaces(b)
    decreases |a|
  {
    if |a| == 0 {
      assert a + b == b;
    } else {
      assert (a + b)[0] == a[0];
      assert (a + b)[1..] == a[1..] + b;
      DropSpacesAppend(a[1..], b);
      if IsRegexSpace(a[0]) {
        assert AllSpaces(a) <==> AllSpaces(a[1..]) by {
          assert forall k :: 1 <= k < |a| ==> a[1..][k - 1] == a[k];
        }
      }
    }
  }

  lemma CollapseWordHead(a: string, b: string)
    requires |a| > 0 && !IsRegexSpace(a[0])
    ensures CollapseSpaces(a + b) == [a[0]] + CollapseSpaces(a[1..] + b)
  {
    var c := a + b;
    assert c[0] == a[0] && c[1..] == a[1..] + b;
  }

  lemma CollapseWordHeadOf(a: string)
    requires |a| > 0 && !IsRegexSpace(a[0])
    ensures CollapseSpaces(a) == [a[0]] + CollapseSpaces(a[1..])
  {
  }

  lemma ConsAssoc(c: char, x: string, y: string)
    ensures [c] + (x + y) == ([c] + x) + y
  {
  }

  lemma CollapseAppendWord(a: string, b: string)
    requires |a| > 0 && !IsRegexSpace(a[0])
    requires CollapseSpaces(a[1..] + b) == CollapseSpaces(a[1..]) + CollapseSpaces(b)
    ensures CollapseSpaces(a + b) == CollapseSpaces(a) + CollapseSpaces(b)
  {
    CollapseWordHead(a, b);
    CollapseWordHeadOf(a);
    ConsAssoc(a[0], CollapseSpaces(a[1..]), CollapseSpaces(b));
  }

  lemma CollapseAppendSpaces(a: string, b: string)
    requires |a| > 0 && AllSpaces(a) && (|b| > 0 ==> !IsRegexSpace(b[0]))
    ensures CollapseSpaces(a + b) == CollapseSpaces(a) + CollapseSpaces(b)
  {
    assert (a + b)[0] == a[0];
    DropSpacesAppend(a, b);
    assert DropSpaces(b) == b;
  }

  lemma CollapseRunHead(s: string)
    requires |s| > 0 && IsRegexSpace(s[0])
    ensures CollapseSpaces(s) == [' '] + CollapseSpaces(DropSpaces(s))
  {
  }

  lemma CollapseAppendRun(a: string, b: string)
    requires |a| > 0 && IsRegexSpace(a[0]) && !AllSpaces(a)
    requires CollapseSpaces(DropSpaces(a) + b) == CollapseSpaces(DropSpaces(a)) + CollapseSpaces(b)
    ensures CollapseSpaces(a + b) == CollapseSpaces(a) + CollapseSpaces(b)
  {
    assert (a + b)[0] == a[0];
    CollapseRunHead(a + b);
    DropSpacesAppend(a, b);
    CollapseRunHead(a);
    ConsAssoc(' ', CollapseSpaces(DropSpaces(a)), CollapseSpaces(b));
  }

  /** Collapsing works run by run: a concatenation whose seam does not fall
      inside a run of whitespace collapses part by part. With the two base
      cases of CollapseSpaces this fixes the result for every input. */
  lemma {:induction false} CollapseSpacesAppend(a: string, b: string)
    requires !(|a| > 0 && |b| > 0 && IsRegexSpace(a[|a| - 1]) && IsRegexSpace(b[0]))
    ensures CollapseSpaces(a + b) == CollapseSpaces(a) + CollapseSpaces(b)
    decreases |a|
  {
    if |a| == 0 {
      assert a + b == b;
    } else if !IsRegexSpace(a[0]) {
      assert |a| > 1 ==> a[1..][|a| - 2] == a[|a| - 1];
      CollapseSpacesAppend(a[1..], b);
      CollapseAppendWord(a, b);
    } else if AllSpaces(a) {
      CollapseAppendSpaces(a, b);
    } else {
      var d := DropSpaces(a);
      assert d[|d| - 1] == a[|a| - 1];
      CollapseSpacesAppend(d, b);
      CollapseAppendRun(a, b);
    }
  }

  /** The cleaned form of a client name; the empty name becomes "untitled".
      Otherwise the characters that are not whitespace are exactly the
      input's allowed non-whitespace characters, in their order. */
  function SanitizeFilename(name: string): (r: string)
    ensures name == "" ==> r == "untitled"
    ensures IsClean(r)
    ensures name != "" ==> NonSpaces(r) == NonSpaces(RemoveDisallowed(name))
    ensures name != "" ==> Layout(r) == Layout(RemoveDisallowed(name))
    ensures name != "" && (forall i :: 0 <= i < |name| ==> !IsKeptChar(name[i])) ==> r == ""
  {
    if name == "" then "untitled"
    else
      PassesGiveCleanName(name);
      PassesKeepNonSpaces(name);
      PassesKeepLayout(name);
      CollapseSpaces(TrimSpace(RemoveDisallowed(name)))
  }

  lemma {:induction false} NonSpacesOfSpaces(u: string)
    requires AllSpaces(u)
    ensures NonSpaces(u) == []
    decreases |u|
  {
    if |u| > 0 {
      assert AllSpaces(u[1..]) by {
        assert forall k :: 0 <= k < |u[1..]| ==> u[1..][k] == u[k + 1];
      }
      NonSpacesOfSpaces(u[1..]);
    }
  }

  /** A stretch of allowed ASCII whitespace has no other characters. */
  lemma KeptSpacesSlice(t: string, lo: int, hi: int)
    requires 0 <= lo <= hi <= |t|
    requires forall k :: lo <= k < hi ==> IsAsciiSpace(t[k]) && t[k] != '\U{000B}'
    ensures NonSpaces(t[lo..hi]) == []
  {
    assert AllSpaces(t[lo..hi]) by {
      forall k | 0 <= k < hi - lo
        ensures IsRegexSpace(t[lo..hi][k])
      {
        assert t[lo..hi][k] == t[lo + k];
      }
    }
    NonSpacesOfSpaces(t[lo..hi]);
  }

  lemma NonSpacesBetween(p: string, r: string, q: string)
    requires NonSpaces(p) == [] && NonSpaces(q) == []
    ensures NonSpaces(p + r + q) == NonSpaces(r)
  {
    NonSpacesAppend(p, r);
    NonSpacesAppend(p + r, q);
  }

  /** A middle slice with nothing but whitespace around it carries all the
      non-whitespace characters. */
  lemma SliceNonSpaces(t: string, i: int, j: int)
    requires 0 <= i <= j <= |t|
    requires NonSpaces(t[0..i]) == [] && NonSpaces(t[j..|t|]) == []
    ensures NonSpaces(t[i..j]) == NonSpaces(t)
  {
    SplitThree(t, i, j);
    NonSpacesBetween(t[0..i], t[i..j], t[j..|t|]);
  }

  lemma SplitThree(t: string, i: int, j: int)
    requires 0 <= i <= j <= |t|
    ensures t == t[0..i] + t[i..j] + t[j..|t|]
  {
  }

  /** On a string without vertical tabs (the one ASCII space that RE2's
      `\s` leaves out), trimming cuts RE2 whitespace only. */
  lemma TrimKeepsNonSpaces(t: string)
    requires forall k :: 0 <= k < |t| ==> t[k] != '\U{000B}'
    ensures NonSpaces(TrimSpace(t)) == NonSpaces(t)
  {
    var i, j := LeadingSpaces(t), TrimEnd(t);
    KeptSpacesSlice(t, 0, i);
    KeptSpacesSlice(t, j, |t|);
    SliceNonSpaces(t, i, j);
  }

  /** The three passes keep the allowed non-whitespace characters. */
  lemma PassesKeepNonSpaces(name: string)
    ensures NonSpaces(CollapseSpaces(TrimSpace(RemoveDisallowed(name)))) == NonSpaces(RemoveDisallowed(name))
  {
    var kept := RemoveDisallowed(name);
    assert forall k :: 0 <= k < |kept| ==> kept[k] != '\U{000B}' by {
      forall k | 0 <= k < |kept| ensures kept[k] != '\U{000B}' {
        assert IsKeptChar(kept[k]);
      }
    }
    TrimKeepsNonSpaces(kept);
  }

  /** The non-whitespace characters of `s` in order, each with whether it
      begins a word: it follows whitespace, or it comes first and
      `afterSpace` holds. */
  function WordMarks(s: string, afterSpace: bool): seq<(char, bool)>
    decreases |s|
  {
    if |s| == 0 then []
    else if IsRegexSpace(s[0]) then WordMarks(s[1..], true)
    else [(s[0], afterSpace)] + WordMarks(s[1..], false)
  }

  /** The word layout of `s`: its words and their order, with the start of
      the string counting as a word boundary. Neither the amount nor the
      kind of whitespace between words shows in it. */
  function Layout(s: string): seq<(char, bool)> {
    WordMarks(s, true)
  }

  lemma {:induction false} MarksDropSpaces(s: string, sp: bool)
    requires |s| > 0 && IsRegexSpace(s[0])
    ensures WordMarks(s, sp) == WordMarks(DropSpaces(s), true)
    decreases |s|
  {
    var t := s[1..];
    if |t| > 0 && IsRegexSpace(t[0]) {
      MarksDropSpaces(t, true);
    }
  }

  /** Collapsing whitespace runs keeps the word marks. */
  lemma {:induction false} CollapseMarks(s: string, sp: bool)
    ensures WordMarks(CollapseSpaces(s), sp) == WordMarks(s, sp)
    decreases |s|
  {
    if |s| > 0 {
      if IsRegexSpace(s[0]) {
        var d := DropSpaces(s);
        CollapseRunHead(s);
        CollapseMarks(d, true);
        MarksDropSpaces(s, sp);
        var c := CollapseSpaces(d);
        assert ([' '] + c)[1..] == c;
      } else {
        CollapseWordHeadOf(s);
        CollapseMarks(s[1..], false);
        var c := CollapseSpaces(s[1..]);
        assert ([s[0]] + c)[1..] == c;
      }
    }
  }

  lemma {:induction false} MarksOfSpaces(w: string, sp: bool)
    requires AllSpaces(w)
    ensures WordMarks(w, sp) == []
    decreases |w|
  {
    if |w| > 0 {
      assert AllSpaces(w[1..]) by {
        assert forall k :: 0 <= k < |w[1..]| ==> w[1..][k] == w[k + 1];
      }
      MarksOfSpaces(w[1..], true);
    }
  }

  /** Trailing whitespace carries no word marks. */
  lemma {:induction false} MarksTrailing(u: string, w: string, sp: bool)
    requires AllSpaces(w)
    ensures WordMarks(u + w, sp) == WordMarks(u, sp)
    decreases |u|
  {
    if |u| == 0 {
      assert u + w == w;
      MarksOfSpaces(w, sp);
    } else {
      assert (u + w)[0] == u[0];
      assert (u + w)[1..] == u[1..] + w;
      MarksTrailing(u[1..], w, IsRegexSpace(u[0]));
    }
  }

  /** Leading whitespace does not change the layout. */
  lemma {:induction false} MarksLeading(t: string, i: int)
    requires 0 <= i <= |t|
    requires forall k :: 0 <= k < i ==> IsRegexSpace(t[k])
    ensures Layout(t) == Layout(t[i..])
    decreases i
  {
    if i > 0 {
      assert t[1..][i - 1..] == t[i..];
      MarksLeading(t[1..], i - 1);
    }
  }

  /** On a string without vertical tabs, trimming keeps the layout. */
  lemma TrimKeepsLayout(t: string)
    requires forall k :: 0 <= k < |t| ==> t[k] != '\U{000B}'
    ensures Layout(TrimSpace(t)) == Layout(t)
  {
    var i, j := LeadingSpaces(t), TrimEnd(t);
    MarksLeading(t, i);
    assert t[i..] == t[i..j] + t[j..];
    assert AllSpaces(t[j..]) by {
      forall k | 0 <= k < |t| - j ensures IsRegexSpace(t[j..][k]) {
        assert t[j..][k] == t[j + k];
      }
    }
    MarksTrailing(t[i..j], t[j..], true);
  }

  /** The three passes keep the layout of the allowed characters. */
  lemma PassesKeepLayout(name: string)
    ensures Layout(CollapseSpaces(TrimSpace(RemoveDisallowed(name)))) == Layout(RemoveDisallowed(name))
  {
    var kept := RemoveDisallowed(name);
    assert forall k :: 0 <= k < |kept| ==> kept[k] != '\U{000B}' by {
      forall k | 0 <= k < |kept| ensures kept[k] != '\U{000B}' {
        assert IsKeptChar(kept[k]);
      }
    }
    TrimKeepsLayout(kept);
    CollapseMarks(TrimSpace(kept), true);
  }

  /** Clean apart from possibly one leading space. */
  ghost predicate SpacedTail(s: string) {
    && (forall i :: 0 <= i < |s| ==> IsFilenameChar(s[i]))
    && NoDoubleSpaces(s)
    && (|s| > 0 ==> s[|s| - 1] != ' ')
  }

  lemma SpacedTailRest(s: string, n: int)
    requires SpacedTail(s) && 0 <= n <= |s|
    ensures SpacedTail(s[n..])
  {
    var t := s[n..];
    assert forall i :: 0 <= i < |t| ==> t[i] == s[n + i];
    assert NoDoubleSpaces(t) by {
      forall i | 0 <= i < |t| - 1 ensures !(t[i] == ' ' && t[i + 1] == ' ') {
        assert t[i] == s[n + i] && t[i + 1] == s[n + i + 1];
      }
    }
  }

  lemma SpacedHead(x: string)
    requires SpacedTail(x) && |x| > 0
    ensures x[0] == ' ' ==>
      && |x| > 1 && !IsRegexSpace(x[1])
      && WordMarks(x, false) == [(x[1], true)] + WordMarks(x[2..], false) && SpacedTail(x[2..])
    ensures x[0] != ' ' ==>
      && !IsRegexSpace(x[0])
      && WordMarks(x, false) == [(x[0], false)] + WordMarks(x[1..], false) && SpacedTail(x[1..])
  {
    assert IsFilenameChar(x[0]);
    if x[0] == ' ' {
      assert |x| > 1;
      assert IsFilenameChar(x[1]) && x[1] != ' ';
      assert x[1..][0] == x[1] && x[1..][1..] == x[2..];
      SpacedTailRest(x, 2);
    } else {
      SpacedTailRest(x, 1);
    }
  }

  lemma {:induction false} SpacedMarksDetermine(x: string, y: string)
    requires SpacedTail(x) && SpacedTail(y)
    requires WordMarks(x, false) == WordMarks(y, false)
    ensures x == y
    decreases |x|
  {
    if |x| == 0 {
      if |y| > 0 {
        SpacedHead(y);
      }
    } else if |y| == 0 {
      SpacedHead(x);
    } else {
      SpacedHead(x);
      SpacedHead(y);
      var m := WordMarks(x, false);
      assert m[0].1 == (x[0] == ' ') && m[0].1 == (y[0] == ' ');
      if x[0] == ' ' {
        assert m[1..] == WordMarks(x[2..], false) == WordMarks(y[2..], false);
        SpacedMarksDetermine(x[2..], y[2..]);
        assert x == x[..2] + x[2..] && y == y[..2] + y[2..];
      } else {
        assert m[1..] == WordMarks(x[1..], false) == WordMarks(y[1..], false);
        SpacedMarksDetermine(x[1..], y[1..]);
        assert x == [x[0]] + x[1..] && y == [y[0]] + y[1..];
      }
    }
  }

  /** A clean name is fixed by its layout: two clean names with the same
      words in the same order are equal. */
  lemma CleanLayoutDetermines(x: string, y: string)
    requires IsClean(x) && IsClean(y) && Layout(x) == Layout(y)
    ensures x == y
  {
    if |x| > 0 {
      assert IsFilenameChar(x[0]);
      SpacedTailRest(x, 1);
    }
    if |y| > 0 {
      assert IsFilenameChar(y[0]);
      SpacedTailRest(y, 1);
    }
    if |x| > 0 && |y| > 0 {
      SpacedMarksDetermine(x[1..], y[1..]);
      assert x == [x[0]] + x[1..] && y == [y[0]] + y[1..];
    }
  }

  /** The cleaned name, described without the passes: the one clean string
      whose words are those of the name's allowed characters, in order. */
  lemma SanitizeByLayout(name: string, c: string)
    requires name != "" && IsClean(c) && Layout(c) == Layout(RemoveDisallowed(name))
    ensures c == SanitizeFilename(name)
  {
    CleanLayoutDetermines(c, SanitizeFilename(name));
  }

  /** The three passes together produce a cleaned name. */
  lemma PassesGiveCleanName(name: string)
    ensures IsClean(CollapseSpaces(TrimSpace(RemoveDisallowed(name))))
  {
    var kept := RemoveDisallowed(name);
    var trimmed := TrimSpace(kept);
    var r := CollapseSpaces(trimmed);
    forall i | 0 <= i < |r|
      ensures IsFilenameChar(r[i])
    {
      if r[i] != ' ' {
        assert r[i] in trimmed && !IsRegexSpace(r[i]);
        var j :| 0 <= j < |trimmed| && trimmed[j] == r[i];
        assert trimmed[j] in kept;
      }
    }
  }

  /** A string whose only whitespace is the plain space, never doubled, is
      left as it is by the space-collapsing pass. */
  lemma {:induction false} CollapseSpacesKeepsSingleSpaces(s: string)
    requires forall i :: 0 <= i < |s| ==> IsRegexSpace(s[i]) ==> s[i] == ' '
    requires NoDoubleSpaces(s)
    ensures CollapseSpaces(s) == s
    decreases |s|
  {
    if |s| > 0 {
      var t := s[1..];
      assert forall i :: 0 <= i < |t| ==> t[i] == s[i + 1];
      assert NoDoubleSpaces(t) by {
        forall i | 0 <= i < |t| - 1
          ensures !(t[i] == ' ' && t[i + 1] == ' ')
        {
          assert t[i] == s[i + 1] && t[i + 1] == s[i + 2];
        }
      }
      CollapseSpacesKeepsSingleSpaces(t);
      if IsRegexSpace(s[0]) {
        assert |t| > 0 ==> !IsRegexSpace(t[0]);
        assert DropSpaces(t) == t;
        assert DropSpaces(s) == t;
      }
    }
  }

  /** The three passes leave a cleaned name as it is. */
  lemma PassesKeepCleanName(s: string)
    requires s != "" && IsClean(s)
    ensures CollapseSpaces(TrimSpace(RemoveDisallowed(s))) == s
  {
    assert RemoveDisallowed(s) == s by {
      assert forall i :: 0 <= i < |s| ==> IsKeptChar(s[i]);
    }
    assert TrimSpace(s) == s by {
      assert !IsAsciiSpace(s[0]) && !IsAsciiSpace(s[|s| - 1]);
    }
    assert forall i :: 0 <= i < |s| ==> IsRegexSpace(s[i]) ==> s[i] == ' ';
    CollapseSpacesKeepsSingleSpaces(s);
  }

  /** The non-empty cleaned names are exactly the names SanitizeFilename
      leaves unchanged. */
  lemma SanitizeFixedPoints(s: string)
    requires s != ""
    ensures SanitizeFilename(s) == s <==> IsClean(s)
  {
    if IsClean(s) {
      PassesKeepCleanName(s);
    }
  }

  /** Cleaning a name twice gives the same as cleaning it once, as long as
      the first pass left something. */
  lemma SanitizeIdempotent(name: string)
    requires SanitizeFilename(name) != ""
    ensures SanitizeFilename(SanitizeFilename(name)) == SanitizeFilename(name)
  {
    SanitizeFixedPoints(SanitizeFilename(name));
  }

  datatype FileError = ProjectDataMissing

  const UnknownClient := "UnknownClient"

  /** "<id> - <client>.json". */
  function FormatFilename(id: string, client: string): string {
    id + " - " + client + ".json"
  }

  /** A formatted file name splits back into the ID, the " - " separator,
      the client part and the ".json" extension. */
  lemma FormatFilenameSplits(id: string, client: string)
    ensures var r := FormatFilename(id, client);
      && |r| == |id| + 3 + |client| + 5
      && r[..|id|] == id
      && r[|id|..|id| + 3] == " - "
      && r[|id| + 3..|r| - 5] == client
      && r[|r| - 5..] == ".json"
  {
    var r := FormatFilename(id, client);
    assert r[..|id|] == id;
    assert r[|id|..|id| + 3] == " - ";
    assert r[|id| + 3..|r| - 5] == client;
    assert r[|r| - 5..] == ".json";
  }

  /** The client name the file name is built from: the contact's name, or
      "UnknownClient" when the contact has none. */
  function ClientName(contact: Contact): (r: string)
    ensures r != ""
    ensures contact.name != "" ==> r == contact.name
    ensures contact.name == "" ==> r == "UnknownClient"
  {
    if contact.name != "" then contact.name else UnknownClient
  }

  /** "<project id> - <cleaned client name>.json"; a missing project or an
      empty ID is an error, and a client without a name is "UnknownClient". */
  function GenerateProjectFilename(project: Option<Project>): (r: Result<string, FileError>)
    ensures r.Failure? <==> project.None? || project.value.id == ""
    ensures r.Success? ==>
      r.value == FormatFilename(project.value.id, SanitizeFilename(ClientName(project.value.contact)))
  {
    match project
    case None => Failure(ProjectDataMissing)
    case Some(p) =>
      if p.id == "" then Failure(ProjectDataMissing)
      else Success(FormatFilename(p.id, SanitizeFilename(ClientName(p.contact))))
  }

  /** The string holds neither '/' nor '\'. */
  predicate HasNoSeparator(s: string) {
    forall i :: 0 <= i < |s| ==> s[i] != '/' && s[i] != '\\'
  }

  lemma ConcatHasNoSeparator(a: string, b: string)
    requires HasNoSeparator(a) && HasNoSeparator(b)
    ensures HasNoSeparator(a + b)
  {
    forall i | 0 <= i < |a + b|
      ensures (a + b)[i] != '/' && (a + b)[i] != '\\'
    {
      if i >= |a| {
        assert (a + b)[i] == b[i - |a|];
      }
    }
  }

  /** A cleaned client part brings no separator into a file name. */
  lemma FormatFilenameHasNoSeparator(id: string, client: string)
    requires HasNoSeparator(id) && IsClean(client)
    ensures HasNoSeparator(FormatFilename(id, client))
  {
    assert HasNoSeparator(client);
    assert HasNoSeparator(" - ") && HasNoSeparator(".json");
    ConcatHasNoSeparator(id, " - ");
    ConcatHasNoSeparator(id + " - ", client);
    ConcatHasNoSeparator(id + " - " + client, ".json");
  }

  /** Only the project ID can bring a path separator into a generated file
      name: the client part never holds '/' or '\'. */
  lemma GeneratedFilenameHasNoSeparator(project: Option<Project>)
    requires project.Some? && project.value.id != ""
    requires HasNoSeparator(project.value.id)
    ensures HasNoSeparator(GenerateProjectFilename(project).value)
  {
    var p := project.value;
    FormatFilenameHasNoSeparator(p.id, SanitizeFilename(ClientName(p.contact)));
  }
}
