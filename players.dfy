/**
 * Players and the name check shared by both "join the queue" handlers:
 * a name is accepted when `name.trim().length >= 2`. A JavaScript string's length
 * counts UTF-16 code units, so a character outside the Basic Multilingual Plane
 * counts twice.
 */
module Players {

  /** A queue entry of the database-backed components: `{id, name}`. */
  datatype Player = Player(id: string, name: string)

  /** The characters `String.prototype.trim` strips: white space and line terminators. */
  predicate IsSpace(c: char) {
    c == ' ' || c == '\t' || c == '\n' || c == '\U{000B}' || c == '\U{000C}' || c == '\r'
    || c == '\U{00A0}' || c == '\U{1680}' || ('\U{2000}' <= c <= '\U{200A}')
    || c == '\U{2028}' || c == '\U{2029}' || c == '\U{202F}' || c == '\U{205F}'
    || c == '\U{3000}' || c == '\U{FEFF}'
  }

  /** The UTF-16 code units of one character: two above U+FFFF (a surrogate pair), else one. */
  function Units(c: char): nat {
    if c as int > 0xFFFF then 2 else 1
  }

  /** `s.length`: the number of UTF-16 code units, at least one per character. */
  function Utf16Length(s: string): (n: nat)
    ensures |s| <= n <= 2 * |s|
  {
    if s == [] then 0 else Units(s[0]) + Utf16Length(s[1..])
  }

  /** UTF-16 code units taken by the characters that are not white space. */
  function NonBlank(s: string): nat {
    if s == [] then 0 else (if IsSpace(s[0]) then 0 else Units(s[0])) + NonBlank(s[1..])
  }

  lemma {:induction false} NonBlankAppend(a: string, b: string)
    ensures NonBlank(a + b) == NonBlank(a) + NonBlank(b)
  {
    if a == [] {
      assert a + b == b;
    } else {
      NonBlankAppend(a[1..], b);
      assert (a + b)[1..] == a[1..] + b;
    }
  }

  /** Drops leading white space: what is dropped is all white space, what is left starts with none. */
  function TrimStart(s: string): (r: string)
    ensures |r| <= |s| && r == s[|s| - |r|..]
    ensures forall i :: 0 <= i < |s| - |r| ==> IsSpace(s[i])
    ensures r == [] || !IsSpace(r[0])
    ensures NonBlank(r) == NonBlank(s)
  {
    if s != [] && IsSpace(s[0]) then TrimStart(s[1..]) else s
  }

  /** Drops trailing white space: what is dropped is all white space, what is left ends with none. */
  function TrimEnd(s: string): (r: string)
    ensures |r| <= |s| && r == s[..|r|]
    ensures forall i :: |r| <= i < |s| ==> IsSpace(s[i])
    ensures r == [] || !IsSpace(r[|r| - 1])
    ensures NonBlank(r) == NonBlank(s)
  {
    if s != [] && IsSpace(s[|s| - 1]) then
      var r := TrimEnd(s[..|s| - 1]);
      assert s == s[..|s| - 1] + [s[|s| - 1]];
      NonBlankAppend(s[..|s| - 1], [s[|s| - 1]]);
      r
    else s
  }

  /** `String.prototype.trim`. */
  function Trim(s: string): string {
    TrimEnd(TrimStart(s))
  }

  /** `name.trim().length >= 2`, the length in UTF-16 code units. */
  predicate ValidName(name: string) {
    Utf16Length(Trim(name)) >= 2
  }

  /**
   * A name passes the check exactly when its characters that are not white space
   * take at least two UTF-16 code units: two such characters, or a single one
   * outside the Basic Multilingual Plane (white space between them is kept by the
   * trim and counts too).
   */
  lemma ValidNameIffTwoNonBlank(name: string)
    ensures ValidName(name) <==> NonBlank(name) >= 2
  {
    TrimShape(name);
    TrimmedUnits(Trim(name), NonBlank(name));
  }

  /**
   * For a string that starts and ends with a character that is not white space, its
   * length reaches two code units exactly when its non-blank characters do.
   */
  lemma TrimmedUnits(t: string, units: nat)
    requires NonBlank(t) == units
    requires t == [] || (!IsSpace(t[0]) && !IsSpace(t[|t| - 1]))
    ensures Utf16Length(t) >= 2 <==> units >= 2
  {
    if |t| >= 2 {
      TwoEndsNonBlank(t);
    } else {
      ShortNonBlank(t);
    }
  }

  /** The trimmed name starts and ends with a character that is not white space. */
  lemma TrimShape(name: string)
    ensures var t := Trim(name);
      && NonBlank(t) == NonBlank(name)
      && (t == [] || (!IsSpace(t[0]) && !IsSpace(t[|t| - 1])))
  {
    var u := TrimStart(name);
    var t := TrimEnd(u);
    if t != [] {
      assert t == u[..|t|];
      assert t[0] == u[0];
    }
  }

  /** A string that starts and ends with a character that is not white space. */
  lemma TwoEndsNonBlank(t: string)
    requires |t| >= 2 && !IsSpace(t[0]) && !IsSpace(t[|t| - 1])
    ensures NonBlank(t) >= 2
  {
    var tail := t[1..];
    assert tail[|tail| - 1] == t[|t| - 1];
    EndsNonBlank(tail);
    assert NonBlank(t) == Units(t[0]) + NonBlank(tail);
  }

  /** At most one character, and not white space: all of its code units count. */
  lemma ShortNonBlank(t: string)
    requires |t| <= 1 && (t == [] || !IsSpace(t[0]))
    ensures NonBlank(t) == Utf16Length(t)
  {
    if t != [] {
      assert t[1..] == [];
    }
  }

  /** A one-character name passes exactly when that character is not white space and lies above U+FFFF. */
  lemma SingleCharacterName(c: char)
    ensures ValidName([c]) <==> !IsSpace(c) && c as int > 0xFFFF
  {
    ValidNameIffTwoNonBlank([c]);
    assert [c][1..] == [];
    assert NonBlank([c]) == (if IsSpace(c) then 0 else Units(c)) + NonBlank([]);
  }

  /** A single emoji (U+1F600) is two code units long, so it passes the check; a single letter does not. */
  lemma AstralNameAccepted()
    ensures ValidName("\U{1F600}") && !ValidName("a")
  {
    SingleCharacterName('\U{1F600}');
    SingleCharacterName('a');
  }

  lemma EndsNonBlank(s: string)
    requires s != [] && !IsSpace(s[|s| - 1])
    ensures NonBlank(s) >= 1
  {
    var n := |s|;
    assert s == s[..n - 1] + [s[n - 1]];
    NonBlankAppend(s[..n - 1], [s[n - 1]]);
    assert NonBlank([s[n - 1]]) == Units(s[n - 1]) + NonBlank([]);
  }
}
