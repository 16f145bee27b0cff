/**
 * The two PHP string built-ins the content generator relies on: the
 * `empty()` test on a string, and `str_replace` with a single needle and
 * with arrays of needles. `explode`/`implode` are given as an independent
 * reference for what a single-needle `str_replace` does.
 */
module PhpStrings {

  type Str = seq<char>

  /** PHP's `empty($s)` for a string: true for "" and for "0", for nothing else. */
  predicate IsEmpty(s: Str) {
    s == "" || s == "0"
  }

  /** `needle` occurs in `s` at some position (always true for the empty needle). */
  predicate Contains(s: Str, needle: Str)
    decreases |s|
  {
    |needle| <= |s| && (s[..|needle|] == needle || Contains(s[1..], needle))
  }

  /**
   * `str_replace($search, $replace, $subject)` with string arguments:
   * every non-overlapping occurrence of `search`, found left to right,
   * becomes `replace`; text produced by a replacement is not scanned again.
   * An empty `search` leaves the subject as it is.
   */
  function StrReplace(search: Str, replace: Str, subject: Str): (result: Str) {
    if search == [] then subject else Scan(search, replace, subject)
  }

  /** The left-to-right scan behind `StrReplace`, for a non-empty needle. */
  function Scan(search: Str, replace: Str, subject: Str): (result: Str)
    requires search != []
    decreases |subject|
  {
    if |subject| < |search| then subject
    else if subject[..|search|] == search then replace + Scan(search, replace, subject[|search|..])
    else [subject[0]] + Scan(search, replace, subject[1..])
  }

  /**
   * `str_replace` with an array of needles and an array of replacements:
   * each needle in turn is replaced over the whole current subject, so a
   * later needle also matches text inserted for an earlier one. A needle
   * without a replacement at its index is replaced by "".
   */
  function StrReplaceEach(search: seq<Str>, replace: seq<Str>, subject: Str): (result: Str)
    decreases |search|
  {
    if search == [] then subject
    else
      var rep := if replace == [] then "" else replace[0];
      var rest := if replace == [] then [] else replace[1..];
      StrReplaceEach(search[1..], rest, StrReplace(search[0], rep, subject))
  }

  /** `explode($separator, $s)`: the pieces of `s` between non-overlapping occurrences of `separator`. */
  function Explode(separator: Str, s: Str): (pieces: seq<Str>)
    requires separator != []
    ensures |pieces| >= 1
    decreases |s|
  {
    if |s| < |separator| then [s]
    else if s[..|separator|] == separator then [[]] + Explode(separator, s[|separator|..])
    else
      var rest := Explode(separator, s[1..]);
      [[s[0]] + rest[0]] + rest[1..]
  }

  /** `implode($glue, $pieces)`: the pieces joined with `glue` between neighbours. */
  function Implode(glue: Str, pieces: seq<Str>): (joined: Str)
    decreases |pieces|
  {
    if pieces == [] then []
    else if |pieces| == 1 then pieces[0]
    else pieces[0] + glue + Implode(glue, pieces[1..])
  }

  lemma {:induction false} ImplodeConsFirst(glue: Str, c: Str, pieces: seq<Str>)
    requires |pieces| >= 1
    ensures Implode(glue, [c + pieces[0]] + pieces[1..]) == c + Implode(glue, pieces)
  {
    var joined := [c + pieces[0]] + pieces[1..];
    assert joined[1..] == pieces[1..];
  }

  lemma ImplodeConsEmpty(glue: Str, pieces: seq<Str>)
    requires |pieces| >= 1
    ensures Implode(glue, [[]] + pieces) == glue + Implode(glue, pieces)
  {
    assert ([[]] + pieces)[1..] == pieces;
  }

  /** A single-needle `str_replace` is `implode($replace, explode($search, $subject))`. */
  lemma {:induction false} StrReplaceIsImplodeExplode(search: Str, replace: Str, subject: Str)
    requires search != []
    ensures StrReplace(search, replace, subject) == Implode(replace, Explode(search, subject))
    decreases |subject|
  {
    if |subject| < |search| {
    } else if subject[..|search|] == search {
      var after := subject[|search|..];
      StrReplaceIsImplodeExplode(search, replace, after);
      var rest := Explode(search, after);
      assert Explode(search, subject) == [[]] + rest;
      assert StrReplace(search, replace, subject) == replace + StrReplace(search, replace, after);
      ImplodeConsEmpty(replace, rest);
    } else {
      var tail := subject[1..];
      StrReplaceIsImplodeExplode(search, replace, tail);
      var rest := Explode(search, tail);
      assert Explode(search, subject) == [[subject[0]] + rest[0]] + rest[1..];
      assert StrReplace(search, replace, subject) == [subject[0]] + StrReplace(search, replace, tail);
      ImplodeConsFirst(replace, [subject[0]], rest);
    }
  }

  /** Replacing a needle by itself changes nothing. */
  lemma {:induction false} StrReplaceBySelf(search: Str, subject: Str)
    ensures StrReplace(search, search, subject) == subject
    decreases |subject|
  {
    if search != [] && |subject| >= |search| {
      if subject[..|search|] == search {
        StrReplaceBySelf(search, subject[|search|..]);
        assert subject[..|search|] + subject[|search|..] == subject;
      } else {
        StrReplaceBySelf(search, subject[1..]);
        assert [subject[0]] + subject[1..] == subject;
      }
    }
  }

  /** Joining the pieces of `explode` with the separator gives the string back. */
  lemma ImplodeExplodeRoundTrip(separator: Str, s: Str)
    requires separator != []
    ensures Implode(separator, Explode(separator, s)) == s
  {
    StrReplaceIsImplodeExplode(separator, separator, s);
    StrReplaceBySelf(separator, s);
  }

  /** The first piece of `explode` is a prefix of the string. */
  lemma {:induction false} ExplodeFirstIsPrefix(separator: Str, s: Str)
    requires separator != []
    ensures var first := Explode(separator, s)[0]; |first| <= |s| && s[..|first|] == first
    decreases |s|
  {
    if |s| >= |separator| && s[..|separator|] != separator {
      ExplodeFirstIsPrefix(separator, s[1..]);
    }
  }

  /** `needle` occurs in `s` starting at index `i`. */
  predicate MatchAt(s: Str, needle: Str, i: nat) {
    i + |needle| <= |s| && s[i..i + |needle|] == needle
  }

  lemma MatchAtShift(s: Str, needle: Str, i: nat)
    requires 1 <= i && s != []
    ensures MatchAt(s, needle, i) == MatchAt(s[1..], needle, i - 1)
  {
    if i + |needle| <= |s| {
      var here, there := s[i..i + |needle|], s[1..][i - 1..i - 1 + |needle|];
      assert |here| == |there|;
      forall k | 0 <= k < |here| ensures here[k] == there[k] {
        assert here[k] == s[i + k];
      }
      assert here == there;
    }
  }

  /** `Contains` holds exactly when the needle matches at some index. */
  lemma {:induction false} ContainsIffMatch(s: Str, needle: Str)
    ensures Contains(s, needle) <==> exists i: nat :: MatchAt(s, needle, i)
    decreases |s|
  {
    if |needle| > |s| {
      forall i: nat ensures !MatchAt(s, needle, i) {}
    } else if s[..|needle|] == needle {
      assert s[0..|needle|] == s[..|needle|];
      assert MatchAt(s, needle, 0);
    } else {
      assert s != [];
      ContainsIffMatch(s[1..], needle);
      if Contains(s[1..], needle) {
        var j: nat :| MatchAt(s[1..], needle, j);
        MatchAtShift(s, needle, j + 1);
      } else {
        forall i: nat ensures !MatchAt(s, needle, i) {
          if i == 0 {
            assert s[0..|needle|] == s[..|needle|];
          } else {
            MatchAtShift(s, needle, i);
          }
        }
      }
    }
  }

  /**
   * `explode` splits at the leftmost occurrence: the separator starts at no
   * index inside the first piece, and when there is a second piece the
   * separator starts right after the first.
   */
  lemma {:induction false} ExplodeFirstIsLeftmost(separator: Str, s: Str)
    requires separator != []
    ensures var pieces := Explode(separator, s);
            && (forall i :: 0 <= i < |pieces[0]| ==> !MatchAt(s, separator, i))
            && (|pieces| > 1 ==> MatchAt(s, separator, |pieces[0]|))
    decreases |s|
  {
    var pieces := Explode(separator, s);
    if |s| < |separator| {
    } else if s[..|separator|] == separator {
      assert MatchAt(s, separator, 0);
    } else {
      ExplodeFirstIsLeftmost(separator, s[1..]);
      var rest := Explode(separator, s[1..]);
      assert pieces[0] == [s[0]] + rest[0];
      assert !MatchAt(s, separator, 0) by {
        assert s[0..|separator|] == s[..|separator|];
      }
      forall i | 1 <= i < |pieces[0]| ensures !MatchAt(s, separator, i) {
        MatchAtShift(s, separator, i);
      }
      if |pieces| > 1 {
        assert |rest| > 1;
        MatchAtShift(s, separator, |pieces[0]|);
      }
    }
  }

  /** No piece of `explode` contains the separator. */
  lemma {:induction false} ExplodePiecesFree(separator: Str, s: Str)
    requires separator != []
    ensures forall i :: 0 <= i < |Explode(separator, s)| ==> !Contains(Explode(separator, s)[i], separator)
    decreases |s|
  {
    var pieces := Explode(separator, s);
    if |s| < |separator| {
      assert pieces == [s];
    } else if s[..|separator|] == separator {
      ExplodePiecesFree(separator, s[|separator|..]);
      var rest := Explode(separator, s[|separator|..]);
      assert pieces == [[]] + rest;
      assert !Contains([], separator);
      forall i | 0 <= i < |pieces| ensures !Contains(pieces[i], separator) {
        if i > 0 { assert pieces[i] == rest[i - 1]; }
      }
    } else {
      ExplodePiecesFree(separator, s[1..]);
      ExplodeFirstIsPrefix(separator, s[1..]);
      var rest := Explode(separator, s[1..]);
      var first := [s[0]] + rest[0];
      assert pieces == [first] + rest[1..];
      assert !Contains(rest[0], separator);
      assert s[..|first|] == first;
      if |separator| <= |first| {
        assert first[..|separator|] == s[..|separator|];
      }
      assert first[1..] == rest[0];
      forall i | 0 <= i < |pieces| ensures !Contains(pieces[i], separator) {
        if i > 0 { assert pieces[i] == rest[i]; }
      }
    }
  }

  /** `explode` splits the string (gives more than one piece) exactly when the separator occurs in it. */
  lemma {:induction false} ExplodeSplitsIffContains(separator: Str, s: Str)
    requires separator != []
    ensures |Explode(separator, s)| > 1 <==> Contains(s, separator)
    decreases |s|
  {
    if |s| >= |separator| && s[..|separator|] != separator {
      ExplodeSplitsIffContains(separator, s[1..]);
    }
  }

  /** A subject without the needle comes back unchanged. */
  lemma {:induction false} StrReplaceAbsent(search: Str, replace: Str, subject: Str)
    requires !Contains(subject, search)
    ensures StrReplace(search, replace, subject) == subject
    decreases |subject|
  {
    if search != [] && |subject| >= |search| {
      StrReplaceAbsent(search, replace, subject[1..]);
      assert [subject[0]] + subject[1..] == subject;
    }
  }

  /** Text that never holds the needle's first character passes through untouched. */
  lemma {:induction false} StrReplaceSkip(search: Str, replace: Str, before: Str, rest: Str)
    requires search != [] && search[0] !in before
    ensures StrReplace(search, replace, before + rest) == before + StrReplace(search, replace, rest)
    decreases |before|
  {
    if before == [] {
      assert before + rest == rest;
    } else {
      var c, more := before[0], before[1..];
      assert before == [c] + more;
      assert before + rest == [c] + (more + rest);
      assert ([c] + (more + rest))[0] != search[0];
      StrReplaceNoMatchFirst(search, replace, c, more + rest);
      StrReplaceSkip(search, replace, more, rest);
    }
  }

  /**
   * A needle that occurs once, between text that never holds the needle's
   * first character, is replaced at that one place and nowhere else.
   */
  lemma StrReplaceSingleSlot(search: Str, replace: Str, before: Str, after: Str)
    requires search != []
    requires search[0] !in before && search[0] !in after
    ensures StrReplace(search, replace, before + search + after) == before + replace + after
  {
    StrReplaceSkip(search, replace, before, search + after);
    StrReplaceMatchFirst(search, replace, after);
    FirstCharAbsent(search, after);
    StrReplaceAbsent(search, replace, after);
    assert before + search + after == before + (search + after);
  }

  /**
   * A needle that occurs exactly once (at no index before the slot, and
   * nowhere after it) is replaced at that one place and nowhere else.
   */
  lemma {:induction false} StrReplaceOnce(search: Str, replace: Str, before: Str, after: Str)
    requires search != []
    requires forall i :: 0 <= i < |before| ==> !MatchAt(before + search + after, search, i)
    requires !Contains(after, search)
    ensures StrReplace(search, replace, before + search + after) == before + replace + after
    decreases |before|
  {
    var subject := before + search + after;
    if before == [] {
      assert subject == search + after;
      StrReplaceMatchFirst(search, replace, after);
      StrReplaceAbsent(search, replace, after);
    } else {
      var c, more := before[0], before[1..];
      assert before == [c] + more;
      assert !MatchAt(subject, search, 0);
      NoMatchBeforeShifts(search, before, after);
      StrReplaceOnce(search, replace, more, after);
      StrReplaceNoMatchFirst(search, replace, c, more + search + after);
      assert subject == [c] + (more + search + after);
      assert before + replace + after == [c] + (more + replace + after);
    }
  }

  /** Dropping the first character keeps "no match before the slot". */
  lemma NoMatchBeforeShifts(search: Str, before: Str, after: Str)
    requires before != []
    requires forall i :: 0 <= i < |before| ==> !MatchAt(before + search + after, search, i)
    ensures forall i :: 0 <= i < |before| - 1 ==> !MatchAt(before[1..] + search + after, search, i)
  {
    var subject := before + search + after;
    assert subject[1..] == before[1..] + search + after;
    forall i | 0 <= i < |before| - 1 ensures !MatchAt(before[1..] + search + after, search, i) {
      MatchAtShift(subject, search, i + 1);
    }
  }

  /** A subject with no match at its start keeps its first character. */
  lemma StrReplaceNoMatchFirst(search: Str, replace: Str, c: char, tail: Str)
    requires search != [] && !MatchAt([c] + tail, search, 0)
    ensures StrReplace(search, replace, [c] + tail) == [c] + StrReplace(search, replace, tail)
  {
    var subject := [c] + tail;
    assert subject[1..] == tail;
    if |search| <= |subject| {
      assert subject[0..|search|] == subject[..|search|];
    }
  }

  /** A subject that starts with the needle has it replaced there first. */
  lemma StrReplaceMatchFirst(search: Str, replace: Str, rest: Str)
    requires search != []
    ensures StrReplace(search, replace, search + rest) == replace + StrReplace(search, replace, rest)
  {
    var subject := search + rest;
    assert subject[..|search|] == search;
    assert subject[|search|..] == rest;
  }

  /** A string without the needle's first character does not contain the needle. */
  lemma {:induction false} FirstCharAbsent(search: Str, s: Str)
    requires search != [] && search[0] !in s
    ensures !Contains(s, search)
    decreases |s|
  {
    if |search| <= |s| {
      assert s[..|search|][0] == s[0];
      assert s[0] in s;
      FirstCharAbsent(search, s[1..]);
    }
  }
}
