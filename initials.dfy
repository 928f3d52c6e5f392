/**
 * The initials expression shared by src/components/header.tsx and
 * src/components/avatar-upload.tsx: split the name on spaces, take the first
 * character of each piece (an empty piece contributes nothing, as `undefined`
 * joins as ""), upper-case, keep the first two characters.
 */
module NameInitials {
  import opened Strings

  /** `parts.map((part) => part[0]).join("")`. */
  function FirstChars(parts: seq<string>): (r: string)
    ensures |r| <= |parts|
  {
    if parts == [] then ""
    else (if parts[0] == "" then "" else [parts[0][0]]) + FirstChars(parts[1..])
  }

  /** `.substring(0, 2)` and `.slice(0, 2)`: at most the first two characters. */
  function TakeTwo(s: string): (r: string)
    ensures |r| <= 2 && |r| <= |s| && r == s[..|r|]
    ensures |s| >= 2 ==> |r| == 2
    ensures |s| < 2 ==> r == s
  {
    if |s| < 2 then s else s[..2]
  }

  /** The initials of a name. */
  function Initials(name: string): string {
    TakeTwo(ToUpperAscii(FirstChars(Split(name, ' '))))
  }

  /**
   * Reference definition: the characters that start a word, i.e. are not a
   * space and come first or right after a space. `atStart` says whether the
   * previous character was a space (or there was none).
   */
  function WordStarts(s: string, atStart: bool): string {
    if s == [] then ""
    else if s[0] == ' ' then WordStarts(s[1..], true)
    else (if atStart then [s[0]] else "") + WordStarts(s[1..], false)
  }

  /** The split-and-map expression picks exactly the word starts. */
  lemma {:induction false} FirstCharsAreWordStarts(s: string)
    ensures FirstChars(Split(s, ' ')) == WordStarts(s, true)
    ensures FirstChars(Split(s, ' ')[1..]) == WordStarts(s, false)
    decreases |s|
  {
    if s != [] {
      FirstCharsAreWordStarts(s[1..]);
      var rest := Split(s[1..], ' ');
      if s[0] == ' ' {
        assert Split(s, ' ') == [""] + rest;
        assert Split(s, ' ')[1..] == rest;
      } else {
        assert Split(s, ' ') == [[s[0]] + rest[0]] + rest[1..];
        assert Split(s, ' ')[1..] == rest[1..];
      }
    }
  }

  /**
   * The initials are at most two characters: the upper-cased first
   * characters of the first two words.
   */
  lemma InitialsSpec(name: string)
    ensures Initials(name) == TakeTwo(ToUpperAscii(WordStarts(name, true)))
    ensures |Initials(name)| <= 2
    ensures forall i :: 0 <= i < |Initials(name)| ==> !IsAsciiLower(Initials(name)[i])
  {
    FirstCharsAreWordStarts(name);
  }

  /** Leading spaces contribute nothing. */
  lemma LeadingSpaceIgnored(name: string)
    ensures Initials(" " + name) == Initials(name)
  {
    FirstCharsAreWordStarts(" " + name);
    FirstCharsAreWordStarts(name);
    assert (" " + name)[1..] == name;
  }

  lemma {:induction false} DoubleSpaceWordStarts(a: string, b: string, atStart: bool)
    ensures WordStarts(a + "  " + b, atStart) == WordStarts(a + " " + b, atStart)
    decreases |a|
  {
    if a == [] {
      assert (a + "  " + b)[1..] == " " + b;
      assert (" " + b)[1..] == b;
      assert a + " " + b == " " + b;
    } else {
      assert (a + "  " + b)[1..] == a[1..] + "  " + b;
      assert (a + " " + b)[1..] == a[1..] + " " + b;
      DoubleSpaceWordStarts(a[1..], b, a[0] == ' ');
    }
  }

  /** A doubled space counts as one. */
  lemma DoubleSpaceIgnored(a: string, b: string)
    ensures Initials(a + "  " + b) == Initials(a + " " + b)
  {
    FirstCharsAreWordStarts(a + "  " + b);
    FirstCharsAreWordStarts(a + " " + b);
    DoubleSpaceWordStarts(a, b, true);
  }

  /** A name with a character other than a space starts at least one word. */
  lemma {:induction false} HasWordStart(s: string)
    requires exists i :: 0 <= i < |s| && s[i] != ' '
    ensures WordStarts(s, true) != ""
    decreases |s|
  {
    if s[0] == ' ' {
      var i :| 0 <= i < |s| && s[i] != ' ';
      assert s[1..][i - 1] == s[i];
      HasWordStart(s[1..]);
    }
  }

  /** ... and so has at least one initial, while a name of spaces only has none. */
  lemma InitialsNonEmptyIff(name: string)
    ensures Initials(name) != "" <==> exists i :: 0 <= i < |name| && name[i] != ' '
  {
    InitialsSpec(name);
    if exists i :: 0 <= i < |name| && name[i] != ' ' {
      HasWordStart(name);
    } else {
      NoWordStart(name, true);
    }
  }

  lemma {:induction false} NoWordStart(s: string, atStart: bool)
    requires forall i :: 0 <= i < |s| ==> s[i] == ' '
    ensures WordStarts(s, atStart) == ""
    decreases |s|
  {
    if s != [] {
      assert forall i :: 0 <= i < |s[1..]| ==> s[1..][i] == s[i + 1];
      NoWordStart(s[1..], true);
    }
  }
}
