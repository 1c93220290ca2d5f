/** Splitting a text at a separator and joining the parts again. */
module Strings {
  function Split<T(==)>(s: seq<T>, sep: T): (parts: seq<seq<T>>)
    ensures parts != []
  {
    if s == [] then [[]]
    else
      var rest := Split(s[1..], sep);
      if s[0] == sep then [[]] + rest else [[s[0]] + rest[0]] + rest[1..]
  }

  function Join<T>(parts: seq<seq<T>>, sep: T): seq<T> {
    if parts == [] then []
    else if |parts| == 1 then parts[0]
    else parts[0] + [sep] + Join(parts[1..], sep)
  }

  lemma {:induction false} SplitPlain<T>(s: seq<T>, sep: T)
    requires sep !in s
    ensures Split(s, sep) == [s]
  {
    if s != [] {
      assert s[0] in s;
      SplitPlain(s[1..], sep);
      assert [s[0]] + s[1..] == s;
    }
  }

  /** Splitting at one separator, then on both sides of it. */
  lemma {:induction false} SplitConcat<T>(s: seq<T>, sep: T, rest: seq<T>)
    ensures Split(s + [sep] + rest, sep) == Split(s, sep) + Split(rest, sep)
  {
    var all := s + [sep] + rest;
    if s == [] {
      assert all[1..] == rest;
    } else {
      SplitConcat(s[1..], sep, rest);
      assert all[1..] == s[1..] + [sep] + rest;
      FirstOver(s[0], Split(s[1..], sep), Split(rest, sep));
    }
  }

  lemma {:induction false} FirstOver<T>(c: T, u: seq<seq<T>>, v: seq<seq<T>>)
    requires u != []
    ensures [[c] + (u + v)[0]] + (u + v)[1..] == [[c] + u[0]] + u[1..] + v
    ensures [[]] + (u + v) == [[]] + u + v
  {
  }

  lemma {:induction false} SplitHead<T>(s: seq<T>, sep: T, rest: seq<T>)
    requires sep !in s
    ensures Split(s + [sep] + rest, sep) == [s] + Split(rest, sep)
  {
    SplitPlain(s, sep);
    SplitConcat(s, sep, rest);
  }

  /** Joining parts without the separator and splitting gives the parts back. */
  lemma {:induction false} SplitJoin<T>(parts: seq<seq<T>>, sep: T)
    requires parts != [] && forall p :: p in parts ==> sep !in p
    ensures Split(Join(parts, sep), sep) == parts
  {
    assert parts[0] in parts;
    if |parts| == 1 {
      SplitPlain(parts[0], sep);
    } else {
      SplitJoin(parts[1..], sep);
      SplitHead(parts[0], sep, Join(parts[1..], sep));
    }
  }

  /** No part of a split holds the separator, and joining undoes the split. */
  lemma {:induction false} JoinSplit<T>(s: seq<T>, sep: T)
    ensures Join(Split(s, sep), sep) == s
    ensures forall p :: p in Split(s, sep) ==> sep !in p
  {
    if s != [] {
      var rest := Split(s[1..], sep);
      JoinSplit(s[1..], sep);
      if s[0] != sep {
        var parts := [[s[0]] + rest[0]] + rest[1..];
        JoinHead([s[0]], rest, sep);
        assert [s[0]] + s[1..] == s;
        assert forall p :: p in parts ==> p == parts[0] || p in rest;
        assert rest[0] in rest;
      } else {
        assert [sep] + s[1..] == s;
      }
    }
  }

  lemma {:induction false} JoinHead<T>(x: seq<T>, parts: seq<seq<T>>, sep: T)
    requires parts != []
    ensures Join([x + parts[0]] + parts[1..], sep) == x + Join(parts, sep)
  {
    var more := [x + parts[0]] + parts[1..];
    assert more[1..] == parts[1..];
  }

  /** White space as Python's `str.isspace` and `\s` have it. */
  predicate PySpace(c: char) {
    var n := c as int;
    || 0x09 <= n <= 0x0d || 0x1c <= n <= 0x20 || n == 0x85 || n == 0xa0 || n == 0x1680
    || 0x2000 <= n <= 0x200a || n == 0x2028 || n == 0x2029 || n == 0x202f || n == 0x205f || n == 0x3000
  }

  /** Nothing is left of it once it is stripped. */
  predicate Blank(s: string) { forall i :: 0 <= i < |s| ==> PySpace(s[i]) }

  function TrimLeft(s: string): (r: string)
    ensures |r| <= |s|
  {
    if s != "" && PySpace(s[0]) then TrimLeft(s[1..]) else s
  }

  function TrimRight(s: string): string {
    if s != "" && PySpace(s[|s| - 1]) then TrimRight(s[..|s| - 1]) else s
  }

  /** `str.strip()`. */
  function Strip(s: string): string { TrimRight(TrimLeft(s)) }

  lemma {:induction false} TrimLeftStops(s: string, c: char, rest: string)
    requires !PySpace(c)
    ensures TrimLeft(s + [c] + rest) == TrimLeft(s) + [c] + rest
    decreases |s|
  {
    var all := s + [c] + rest;
    if s != "" && PySpace(s[0]) {
      assert all[1..] == s[1..] + [c] + rest;
      TrimLeftStops(s[1..], c, rest);
    } else if s == "" {
      assert all == [c] + rest;
    }
  }

  lemma {:induction false} TrimRightStops(s: string, c: char, rest: string)
    requires !PySpace(c)
    ensures TrimRight(s + [c] + rest) == s + [c] + TrimRight(rest)
    decreases |rest|
  {
    var all := s + [c] + rest;
    if rest == "" {
      assert all == s + [c];
    } else if PySpace(rest[|rest| - 1]) {
      assert all[..|all| - 1] == s + [c] + rest[..|rest| - 1];
      TrimRightStops(s, c, rest[..|rest| - 1]);
    }
  }

  /** Stripping goes no further than the first character that is no space. */
  lemma {:induction false} StripAround(s: string, c: char, rest: string)
    requires !PySpace(c)
    ensures Strip(s + [c] + rest) == TrimLeft(s) + [c] + TrimRight(rest)
  {
    TrimLeftStops(s, c, rest);
    TrimRightStops(TrimLeft(s), c, rest);
  }

  lemma {:induction false} TrimRightKeeps(s: string, c: char)
    requires !PySpace(c)
    ensures c in TrimRight(s) <==> c in s
  {
    if s != "" && PySpace(s[|s| - 1]) {
      TrimRightKeeps(s[..|s| - 1], c);
      assert s == s[..|s| - 1] + [s[|s| - 1]];
    }
  }

  lemma {:induction false} TrimLeftKeeps(s: string, c: char)
    requires !PySpace(c)
    ensures c in TrimLeft(s) <==> c in s
  {
    if s != "" && PySpace(s[0]) {
      TrimLeftKeeps(s[1..], c);
      assert s == [s[0]] + s[1..];
    }
  }

  /** The parts that are not blank, stripped. */
  function Kept(parts: seq<string>): seq<string> {
    if parts == [] then []
    else (if Strip(parts[0]) == "" then [] else [Strip(parts[0])]) + Kept(parts[1..])
  }

  lemma {:induction false} TrimRightBlank(s: string)
    ensures TrimRight(s) == "" <==> Blank(s)
  {
    if s != "" {
      TrimRightBlank(s[..|s| - 1]);
      assert s == s[..|s| - 1] + [s[|s| - 1]];
      assert Blank(s) <==> Blank(s[..|s| - 1]) && PySpace(s[|s| - 1]);
    }
  }

  lemma {:induction false} TrimLeftBlank(s: string)
    ensures Blank(TrimLeft(s)) <==> Blank(s)
  {
    if s != "" && PySpace(s[0]) {
      TrimLeftBlank(s[1..]);
      assert s == [s[0]] + s[1..];
      assert Blank(s) <==> Blank(s[1..]);
    }
  }

  lemma {:induction false} StripBlank(s: string)
    ensures Strip(s) == "" <==> Blank(s)
  {
    TrimLeftBlank(s);
    TrimRightBlank(TrimLeft(s));
  }

  /** The white space by its code points. */
  lemma {:induction false} SpacesAre(c: char)
    ensures (c as int < 0x1000) ==>
      (PySpace(c) <==> c as int in {0x09, 0x0a, 0x0b, 0x0c, 0x0d, 0x1c, 0x1d, 0x1e, 0x1f, 0x20, 0x85, 0xa0})
    ensures (c as int >= 0x1000) ==>
      (PySpace(c) <==> c as int in {0x1680, 0x2000, 0x2001, 0x2002, 0x2003, 0x2004, 0x2005, 0x2006, 0x2007, 0x2008,
                                    0x2009, 0x200a, 0x2028, 0x2029, 0x202f, 0x205f, 0x3000})
  {
  }

  lemma {:induction false} TrimLeftIs(s: string) returns (a: string)
    ensures Blank(a) && s == a + TrimLeft(s) && (TrimLeft(s) != "" ==> !PySpace(TrimLeft(s)[0]))
  {
    a := "";
    if s != "" && PySpace(s[0]) {
      a := TrimLeftIs(s[1..]);
      a := [s[0]] + a;
    }
  }

  lemma {:induction false} TrimRightIs(s: string) returns (b: string)
    ensures Blank(b) && s == TrimRight(s) + b
    ensures var r := TrimRight(s); r != "" ==> !PySpace(r[|r| - 1]) && r[0] == s[0]
  {
    b := "";
    if s != "" && PySpace(s[|s| - 1]) {
      var init, last := s[..|s| - 1], s[|s| - 1];
      var more := TrimRightIs(init);
      b := more + [last];
      assert s == init + [last] && TrimRight(s) == TrimRight(init);
      assert TrimRight(init) + more + [last] == TrimRight(init) + b;
    }
  }

  /** Stripping takes white space off both ends, and leaves none there. */
  lemma {:induction false} StripIs(s: string)
    ensures exists a, b :: Blank(a) && Blank(b) && s == a + (Strip(s) + b)
    ensures Strip(s) != "" ==> !PySpace(Strip(s)[0]) && !PySpace(Strip(s)[|Strip(s)| - 1])
  {
    var a := TrimLeftIs(s);
    var b := TrimRightIs(TrimLeft(s));
    assert s == a + (Strip(s) + b);
  }

  /** Part by part, what is kept is the stripped part unless it is blank. */
  lemma {:induction false} KeptIs(before: seq<string>, part: string, after: seq<string>)
    ensures Kept(before + ([part] + after)) ==
            Kept(before) + ((if Blank(part) then [] else [Strip(part)]) + Kept(after))
    decreases |before|
  {
    if before == [] {
      assert before + ([part] + after) == [part] + after;
      assert ([part] + after)[1..] == after;
      StripBlank(part);
    } else {
      assert (before + ([part] + after))[1..] == before[1..] + ([part] + after);
      KeptIs(before[1..], part, after);
    }
  }
}
