/** The `std::string` searches and edits that the HTTP code uses. */
module CppString {
  import opened Common

  predicate Occurs(s: string, p: string, i: nat) {
    i + |p| <= |s| && s[i..i + |p|] == p
  }

  predicate Contains(s: string, p: string) {
    exists i :: 0 <= i <= |s| && Occurs(s, p, i)
  }

  /** `rfind`: the last occurrence. */
  function RFind(s: string, p: string): (r: Option<nat>)
    ensures r.Some? ==> Occurs(s, p, r.value) && forall j :: r.value < j <= |s| ==> !Occurs(s, p, j)
    ensures r.None? ==> !Contains(s, p)
  {
    RFindUpTo(s, p, |s|)
  }

  function RFindUpTo(s: string, p: string, n: nat): (r: Option<nat>)
    requires n <= |s| && forall j :: n < j <= |s| ==> !Occurs(s, p, j)
    ensures r.Some? ==> Occurs(s, p, r.value) && forall j :: r.value < j <= |s| ==> !Occurs(s, p, j)
    ensures r.None? ==> forall j :: 0 <= j <= |s| ==> !Occurs(s, p, j)
  {
    if Occurs(s, p, n) then Some(n) else if n == 0 then None else RFindUpTo(s, p, n - 1)
  }

  /** The first index of `c`, or the length. */
  function IndexOf(s: string, c: char): (i: nat)
    ensures i <= |s| && c !in s[..i]
    ensures i < |s| ==> s[i] == c
  {
    if s == [] || s[0] == c then 0 else 1 + IndexOf(s[1..], c)
  }

  lemma {:induction false} IndexOfUnique(a: string, c: char, b: string)
    requires c !in a
    ensures IndexOf(a + [c] + b, c) == |a|
  {
    var s := a + [c] + b;
    if a != [] {
      assert s[1..] == a[1..] + [c] + b;
      IndexOfUnique(a[1..], c, b);
    }
  }

  /** A std::string made from `s.c_str()`, or from a buffer: the characters before the first NUL. */
  function UpToNul(s: string): (t: string)
    ensures t <= s && 0 as char !in t
    ensures |t| < |s| ==> s[|t|] == 0 as char
  {
    s[..IndexOf(s, 0 as char)]
  }

  // ----- trimming -----

  /** `s.erase(0, s.find_first_not_of(ws))` */
  function TrimLeft(s: string, ws: string): (t: string)
    ensures |t| <= |s| && t == s[|s| - |t|..]
    ensures t != [] ==> t[0] !in ws
    ensures forall i :: 0 <= i < |s| - |t| ==> s[i] in ws
  {
    if s != [] && s[0] in ws then
      var t := TrimLeft(s[1..], ws);
      assert s[|s| - |t|..] == s[1..][|s| - 1 - |t|..];
      assert forall i :: 0 <= i < |s| - |t| ==> s[i] == if i == 0 then s[0] else s[1..][i - 1];
      t
    else s
  }

  /** `s.erase(s.find_last_not_of(ws) + 1)` */
  function TrimRight(s: string, ws: string): (t: string)
    ensures t <= s
    ensures t != [] ==> t[|t| - 1] !in ws
    ensures forall i :: |t| <= i < |s| ==> s[i] in ws
  {
    if s != [] && s[|s| - 1] in ws then TrimRight(s[..|s| - 1], ws) else s
  }

  function Trim(s: string, ws: string): (t: string)
    ensures t != [] ==> t[0] !in ws && t[|t| - 1] !in ws
    ensures forall c :: c in t ==> c in s
  {
    TrimRight(TrimLeft(s, ws), ws)
  }

  /** Trimming takes a part of the text. */
  lemma TrimIsPart(s: string, ws: string) returns (a: string, b: string)
    ensures s == a + Trim(s, ws) + b
  {
    hide TrimLeft, TrimRight;
    var u := TrimLeft(s, ws);
    var t := TrimRight(u, ws);
    a, b := s[..|s| - |u|], u[|t|..];
    assert s == a + u && u == t + b;
  }

  lemma NothingToTrim(s: string, ws: string)
    requires s != "" ==> s[0] !in ws && s[|s| - 1] !in ws
    ensures Trim(s, ws) == s
  {
  }

  lemma {:induction false} TrimRightAfter(a: string, b: string, ws: string)
    requires a != [] && a[|a| - 1] !in ws
    ensures TrimRight(a + b, ws) == a + TrimRight(b, ws)
  {
    var s := a + b;
    if b == [] {
      assert s == a;
    } else if b[|b| - 1] in ws {
      assert s[..|s| - 1] == a + b[..|b| - 1];
      TrimRightAfter(a, b[..|b| - 1], ws);
    }
  }

  lemma AllTrimmed(s: string, ws: string)
    requires forall c :: c in s ==> c in ws
    ensures TrimLeft(s, ws) == "" && TrimRight(s, ws) == "" && Trim(s, ws) == ""
  {
    hide TrimLeft, TrimRight;
    assert TrimLeft(s, ws) == "" by {
      assert forall c :: c in TrimLeft(s, ws) ==> c in s;
    }
    assert TrimRight("", ws) == "";
  }

  lemma {:induction false} TrimLeftPast(a: string, s: string, ws: string)
    requires (forall c :: c in a ==> c in ws) && s != "" && s[0] !in ws
    ensures TrimLeft(a + s, ws) == s
  {
    if a == "" {
      assert a + s == s;
    } else {
      assert (a + s)[0] == a[0] && (a + s)[1..] == a[1..] + s;
      TrimLeftPast(a[1..], s, ws);
    }
  }

  /** What trimming leaves is the one way to split off blanks on both sides. */
  lemma TrimUnique(a: string, t: string, b: string, ws: string)
    requires forall c :: c in a + b ==> c in ws
    requires t != "" ==> t[0] !in ws && t[|t| - 1] !in ws
    ensures Trim(a + t + b, ws) == t
  {
    hide TrimLeft, TrimRight;
    assert a + t + b == a + (t + b);
    assert forall c :: c in a ==> c in a + b;
    assert forall c :: c in b ==> c in a + b;
    if t == "" {
      assert a + (t + b) == a + b;
      AllTrimmed(a + b, ws);
    } else {
      TrimLeftPast(a, t + b, ws);
      TrimRightAfter(t, b, ws);
      AllTrimmed(b, ws);
    }
  }

  // ----- filters -----

  /** `removeSpaces` */
  function RemoveSpaces(s: string): (t: string)
    ensures ' ' !in t && forall c :: c in t ==> c in s
  {
    if s == [] then [] else (if s[0] == ' ' then [] else [s[0]]) + RemoveSpaces(s[1..])
  }

  lemma {:induction false} RemoveSpacesBetween(t: string)
    requires ' ' !in t
    ensures RemoveSpaces(t + " ") == t
  {
    if t == [] {
      assert RemoveSpaces(" ") == RemoveSpaces("");
    } else {
      assert (t + " ")[1..] == t[1..] + " ";
      RemoveSpacesBetween(t[1..]);
    }
  }

  /** A character that `removeSpecialCharacters` keeps. */
  predicate Printable(c: char) {
    32 as char <= c <= 126 as char
  }

  /** `removeSpecialCharacters` */
  function RemoveSpecialCharacters(s: string): (t: string)
    ensures forall c :: c in t ==> c in s && Printable(c)
  {
    if s == [] then [] else (if Printable(s[0]) then [s[0]] else []) + RemoveSpecialCharacters(s[1..])
  }

  lemma {:induction false} RemoveSpacesOfBoth(a: string, b: string)
    ensures RemoveSpaces(a + b) == RemoveSpaces(a) + RemoveSpaces(b)
  {
    if a == "" {
      assert a + b == b;
    } else {
      assert (a + b)[0] == a[0] && (a + b)[1..] == a[1..] + b;
      RemoveSpacesOfBoth(a[1..], b);
    }
  }

  lemma {:induction false} NoSpacesToRemove(s: string)
    requires ' ' !in s
    ensures RemoveSpaces(s) == s
  {
    if s != "" {
      NoSpacesToRemove(s[1..]);
      assert s[0] in s && s == [s[0]] + s[1..];
    }
  }

  /** removeSpaces leaves out the spaces and keeps the rest in order. */
  lemma RemoveSpacesKeeps(word: string, rest: string)
    requires ' ' !in word
    ensures RemoveSpaces(word + rest) == word + RemoveSpaces(rest)
    ensures RemoveSpaces(" " + rest) == RemoveSpaces(rest)
  {
    RemoveSpacesOfBoth(word, rest);
    NoSpacesToRemove(word);
    assert (" " + rest)[1..] == rest;
  }

  lemma {:induction false} SpecialsOfBoth(a: string, b: string)
    ensures RemoveSpecialCharacters(a + b) == RemoveSpecialCharacters(a) + RemoveSpecialCharacters(b)
  {
    if a == "" {
      assert a + b == b;
    } else {
      assert (a + b)[0] == a[0] && (a + b)[1..] == a[1..] + b;
      SpecialsOfBoth(a[1..], b);
    }
  }

  lemma {:induction false} NoSpecials(s: string)
    requires forall c :: c in s ==> ' ' <= c <= '~'
    ensures RemoveSpecialCharacters(s) == s
  {
    if s != "" {
      assert forall c :: c in s[1..] ==> c in s;
      NoSpecials(s[1..]);
      assert s[0] in s && s == [s[0]] + s[1..];
    }
  }

  /** removeSpecialCharacters keeps the characters from ' ' to '~' in order, and leaves out every other one. */
  lemma PrintableIsKept(text: string, c: char, rest: string)
    requires (forall x :: x in text ==> ' ' <= x <= '~') && !(' ' <= c <= '~')
    ensures RemoveSpecialCharacters(text + rest) == text + RemoveSpecialCharacters(rest)
    ensures RemoveSpecialCharacters([c] + rest) == RemoveSpecialCharacters(rest)
  {
    SpecialsOfBoth(text, rest);
    NoSpecials(text);
    assert ([c] + rest)[1..] == rest;
  }

  // ----- lines -----

  /** What successive calls of `getline` read: a last line without newline counts when it is not empty. */
  function Lines(s: string): (ls: seq<string>)
    ensures forall i :: 0 <= i < |ls| ==> '\n' !in ls[i]
  {
    if s == [] then []
    else
      var i := IndexOf(s, '\n');
      [s[..i]] + if i == |s| then [] else Lines(s[i + 1..])
  }

  lemma FirstLine(line: string, rest: string)
    requires '\n' !in line
    ensures Lines(line + "\n" + rest) == [line] + Lines(rest)
  {
    var s := line + "\n" + rest;
    IndexOfUnique(line, '\n', rest);
    assert "\n" == ['\n'];
    assert s[..|line|] == line && s[|line| + 1..] == rest;
  }

  /** A text has every character of the texts it contains. */
  lemma ContainedChar(s: string, p: string, c: char)
    requires c in p
    ensures Contains(s, p) ==> c in s
  {
    if Contains(s, p) {
      var k :| 0 <= k < |p| && p[k] == c;
      var i :| 0 <= i <= |s| && Occurs(s, p, i);
      assert s[i..i + |p|][k] == s[i + k];
    }
  }

  // ----- substr -----

  /** A size_t that `find_first_of` returns; NPOS is the largest one, -1. */
  datatype Position = At(i: nat) | NPOS {
    /** `pos + 1`, which wraps for NPOS. */
    function Behind(): nat {
      if NPOS? then 0 else i + 1
    }

    /** `length - pos`, which wraps to one more than the length for NPOS. */
    function Before(length: nat): Position
      requires At? ==> i <= length
    {
      At(if NPOS? then length + 1 else length - i)
    }
  }

  function FindFirstOf(s: string, c: char): (p: Position)
    ensures p == NPOS <==> c !in s
    ensures p.At? ==> p.i < |s| && s[p.i] == c && c !in s[..p.i]
  {
    var i := IndexOf(s, c);
    assert s[..|s|] == s;
    if i == |s| then NPOS else At(i)
  }

  /** `s.substr(pos, n)`: past the end it throws std::out_of_range, and no more is read than there is. */
  function Substr(s: string, pos: Position, n: Position): Option<string> {
    if pos.NPOS? || pos.i > |s| then None
    else Some(if n.NPOS? || n.i >= |s| - pos.i then s[pos.i..] else s[pos.i..pos.i + n.i])
  }

  // ----- containment -----

  lemma ContainsInPart(s: string, a: string, t: string, b: string, p: string)
    requires s == a + t + b && Contains(t, p)
    ensures Contains(s, p)
  {
    var i :| 0 <= i <= |t| && Occurs(t, p, i);
    assert s[|a| + i..|a| + i + |p|] == t[i..i + |p|];
    assert Occurs(s, p, |a| + i);
  }

  lemma ContainsInPrefix(s: string, t: string, p: string)
    requires t <= s && Contains(t, p)
    ensures Contains(s, p)
  {
    var i :| 0 <= i <= |t| && Occurs(t, p, i);
    assert s[i..i + |p|] == t[i..i + |p|];
    assert Occurs(s, p, i);
  }
}
