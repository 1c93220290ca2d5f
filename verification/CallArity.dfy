/** How the call-arity gate splits a parameter list, and how many arguments a call must give. */
module CallArity {
  import opened Sequences
  import opened Bytes
  import opened Brackets
  import opened Strings

  // ---------------------------------------------------------------- the scan

  /** Where the scan from `base` on finds a comma at depth zero. */
  function Cuts(s: string, base: nat, depth: int, escapes: bool): (cuts: seq<nat>)
    decreases |s|
  {
    if s == "" then []
    else if Quote(s[0]) then
      var k := 1 + StringLen(s[1..], s[0], escapes);
      Cuts(s[k..], base + k, depth, escapes)
    else if s[0] == ',' && depth == 0 then [base] + Cuts(s[1..], base + 1, depth, escapes)
    else Cuts(s[1..], base + 1, Deeper(s[0], depth), escapes)
  }

  /** Where the scan finds the bracket that closes what it started inside of. */
  function Closer(s: string, base: nat, depth: int, escapes: bool): Option<nat>
    decreases |s|
  {
    if s == "" then None
    else if Quote(s[0]) then
      var k := 1 + StringLen(s[1..], s[0], escapes);
      Closer(s[k..], base + k, depth, escapes)
    else if Closes(s[0]) && depth == 0 then Some(base)
    else Closer(s[1..], base + 1, Deeper(s[0], depth), escapes)
  }

  /** The inner loop of the scan: past the literal that opens at `at`. */
  method SkipLiteral(s: string, at: nat) returns (i: nat)
    requires at < |s| && Quote(s[at])
    ensures at < i <= |s| && i == at + 1 + StringLen(s[at + 1..], s[at], true)
  {
    var q := s[at];
    i := at + 1;
    while i < |s|
      invariant at < i <= |s|
      invariant at + 1 + StringLen(s[at + 1..], q, true) == i + StringLen(s[i..], q, true)
    {
      LiteralStep(s, i, q, true);
      if s[i] == '\\' {
        i := if i + 2 <= |s| then i + 2 else |s|;
      } else if s[i] == q {
        return i + 1;
      } else {
        i := i + 1;
      }
    }
    assert s[|s|..] == "";
  }

  /** The separators found so far and those still ahead are all of them. */
  ghost predicate Separating(s: string, i: nat, depth: int, out: seq<nat>, e: bool)
    requires i <= |s|
  {
    Cuts(s, 0, 0, e) == out + Cuts(s[i..], i, depth, e)
  }

  lemma {:induction false} SeparateChar(s: string, i: nat, depth: int, out: seq<nat>, d: int, e: bool)
    requires i < |s| && !Quote(s[i]) && Separating(s, i, depth, out, e) && d == Deeper(s[i], depth)
    ensures Separating(s, i + 1, d, if s[i] == ',' && d == 0 then out + [i] else out, e)
  {
    assert s[i..][1..] == s[i + 1..];
  }

  lemma {:induction false} SeparateLiteral(s: string, i: nat, depth: int, out: seq<nat>, end: nat, e: bool)
    requires i < end <= |s| && Quote(s[i]) && end == i + 1 + StringLen(s[i + 1..], s[i], e)
    requires Separating(s, i, depth, out, e)
    ensures Separating(s, end, depth, out, e)
  {
    assert s[i..][1..] == s[i + 1..] && s[i..][end - i..] == s[end..];
  }

  lemma {:induction false} SeparateStart(s: string, e: bool)
    ensures Separating(s, 0, 0, [], e)
  {
    assert s[0..] == s;
  }

  lemma {:induction false} SeparateEnd(s: string, depth: int, out: seq<nat>, e: bool)
    requires Separating(s, |s|, depth, out, e)
    ensures out == Cuts(s, 0, 0, e)
  {
    assert s[|s|..] == "";
  }

  /** One turn of the scan: past a literal, or past one character that may be a separator. */
  method SeparatorAt(s: string, i: nat, depth: int, out: seq<nat>) returns (next: nat, d: int, more: seq<nat>)
    requires i < |s| && Separating(s, i, depth, out, true)
    ensures i < next <= |s| && Separating(s, next, d, more, true)
  {
    if Quote(s[i]) {
      next := SkipLiteral(s, i);
      SeparateLiteral(s, i, depth, out, next, true);
      d, more := depth, out;
    } else {
      d := Deeper(s[i], depth);
      SeparateChar(s, i, depth, out, d, true);
      more := if s[i] == ',' && d == 0 then out + [i] else out;
      next := i + 1;
    }
  }

  /** `_scan` with `on_sep`: the separators of the list. */
  method ScanSeparators(s: string) returns (out: seq<nat>)
    ensures out == Cuts(s, 0, 0, true)
  {
    var i, depth := 0, 0;
    out := [];
    SeparateStart(s, true);
    while i < |s|
      invariant 0 <= i <= |s| && Separating(s, i, depth, out, true)
    {
      i, depth, out := SeparatorAt(s, i, depth, out);
    }
    SeparateEnd(s, depth, out, true);
  }

  lemma {:induction false} CloserStep(s: string, i: nat, depth: int, e: bool)
    requires i < |s| && !Quote(s[i])
    ensures Closer(s[i..], i, depth, e)
         == if Closes(s[i]) && depth == 0 then Some(i) else Closer(s[i + 1..], i + 1, Deeper(s[i], depth), e)
  {
    assert s[i..][1..] == s[i + 1..];
  }

  lemma {:induction false} CloserLiteral(s: string, i: nat, depth: int, end: nat, e: bool)
    requires i < end <= |s| && Quote(s[i]) && end == i + 1 + StringLen(s[i + 1..], s[i], e)
    ensures Closer(s[i..], i, depth, e) == Closer(s[end..], end, depth, e)
  {
    assert s[i..][1..] == s[i + 1..] && s[i..][end - i..] == s[end..];
  }

  /** `_scan` without `on_sep`: the bracket that closes the call the text is inside of. */
  method ScanCloser(s: string) returns (at: Option<nat>)
    ensures at == Closer(s, 0, 0, true)
  {
    var i, depth := 0, 0;
    while i < |s|
      invariant 0 <= i <= |s| && depth >= 0 && Closer(s, 0, 0, true) == Closer(s[i..], i, depth, true)
    {
      if Quote(s[i]) {
        var end := SkipLiteral(s, i);
        CloserLiteral(s, i, depth, end, true);
        i := end;
      } else {
        CloserStep(s, i, depth, true);
        depth := Deeper(s[i], depth);
        if depth < 0 {
          return Some(i);
        }
        i := i + 1;
      }
    }
    assert s[|s|..] == "";
    return None;
  }

  // ---------------------------------------------------------------- the parts

  /** The text that starts at `base`, cut at the given positions. */
  function Slices(s: string, base: nat, cuts: seq<nat>): (parts: seq<string>)
    ensures parts != []
    decreases |cuts|
  {
    if cuts == [] || !(base <= cuts[0] < base + |s|) then [s]
    else
      var k := cuts[0] - base;
      [s[..k]] + Slices(s[k + 1..], cuts[0] + 1, cuts[1..])
  }

  ghost predicate Within(cuts: seq<nat>, lo: nat, hi: nat) {
    && (forall i :: 0 <= i < |cuts| ==> lo <= cuts[i] < hi)
    && forall i, j :: 0 <= i < j < |cuts| ==> cuts[i] < cuts[j]
  }

  lemma {:induction false} WithinCons(cuts: seq<nat>, lo: nat, hi: nat)
    requires lo < hi && Within(cuts, lo + 1, hi)
    ensures Within([lo] + cuts, lo, hi) && Within(cuts, lo, hi)
  {
  }

  lemma {:induction false} CutsWithin(s: string, base: nat, depth: int, e: bool)
    ensures Within(Cuts(s, base, depth, e), base, base + |s|)
    decreases |s|
  {
    if s == "" {
    } else if Quote(s[0]) {
      var k := 1 + StringLen(s[1..], s[0], e);
      CutsWithin(s[k..], base + k, depth, e);
    } else {
      CutsWithin(s[1..], base + 1, Deeper(s[0], depth), e);
      WithinCons(Cuts(s[1..], base + 1, Deeper(s[0], depth), e), base, base + |s|);
    }
  }

  lemma {:induction false} SlicesPrepend(x: string, s: string, base: nat, cuts: seq<nat>)
    requires cuts != [] ==> base + |x| <= cuts[0]
    ensures Slices(x + s, base, cuts) == Prepend(x, Slices(s, base + |x|, cuts))
  {
    if cuts != [] && cuts[0] < base + |x + s| {
      var k := cuts[0] - base;
      assert (x + s)[..k] == x + s[..k - |x|];
      assert (x + s)[k + 1..] == s[k - |x| + 1..];
    }
  }

  lemma {:induction false} SlicesCut(s: string, base: nat, more: seq<nat>)
    requires s != ""
    ensures Slices(s, base, [base] + more) == [""] + Slices(s[1..], base + 1, more)
  {
    assert ([base] + more)[1..] == more;
  }

  lemma {:induction false} TokenSliced(s: string, k: nat, base: nat, cuts: seq<nat>, parts: seq<string>,
                                       rest: seq<string>)
    requires k <= |s| && (cuts != [] ==> base + k <= cuts[0]) && rest != []
    requires Slices(s[k..], base + k, cuts) == rest && parts == Prepend(s[..k], rest)
    ensures Slices(s, base, cuts) == parts
  {
    SlicesPrepend(s[..k], s[k..], base, cuts);
    assert s[..k] + s[k..] == s;
  }

  lemma {:induction false} CutsAfter(s: string, base: nat, depth: int, e: bool)
    ensures var c := Cuts(s, base, depth, e); c != [] ==> base <= c[0]
  {
    CutsWithin(s, base, depth, e);
  }

  lemma {:induction false} LiteralFirst(s: string, base: nat, depth: int, e: bool)
    requires s != "" && Quote(s[0])
    ensures var k := 1 + StringLen(s[1..], s[0], e);
      Cuts(s, base, depth, e) == Cuts(s[k..], base + k, depth, e)
  {
  }

  lemma {:induction false} LiteralPart(s: string, depth: int, e: bool)
    requires s != "" && Quote(s[0])
    ensures var k := 1 + StringLen(s[1..], s[0], e);
      Parts(s, depth, e) == Prepend(s[..k], Parts(s[k..], depth, e))
  {
  }

  lemma {:induction false} CharFirst(s: string, base: nat, depth: int, e: bool)
    requires s != "" && !Quote(s[0]) && !(s[0] == ',' && depth == 0)
    ensures Cuts(s, base, depth, e) == Cuts(s[1..], base + 1, Deeper(s[0], depth), e)
    ensures Parts(s, depth, e) == Prepend(s[..1], Parts(s[1..], Deeper(s[0], depth), e))
  {
    assert s[..1] == [s[0]];
  }

  lemma {:induction false} CommaFirst(s: string, base: nat, depth: int, e: bool)
    requires s != "" && s[0] == ',' && depth == 0
    ensures Cuts(s, base, depth, e) == [base] + Cuts(s[1..], base + 1, depth, e)
    ensures Parts(s, depth, e) == [""] + Parts(s[1..], depth, e)
  {
  }

  lemma {:induction false} FirstToken(s: string, base: nat, depth: int, e: bool) returns (k: nat, d: int)
    requires s != "" && !(s[0] == ',' && depth == 0)
    ensures 0 < k <= |s| && Cuts(s, base, depth, e) == Cuts(s[k..], base + k, d, e)
    ensures Parts(s, depth, e) == Prepend(s[..k], Parts(s[k..], d, e))
  {
    if Quote(s[0]) {
      k, d := 1 + StringLen(s[1..], s[0], e), depth;
      LiteralFirst(s, base, depth, e);
      LiteralPart(s, depth, e);
    } else {
      k, d := 1, Deeper(s[0], depth);
      CharFirst(s, base, depth, e);
    }
  }

  /** Slicing at the cuts gives the parts that the grammar speaks of. */
  lemma {:induction false} CutsMakeParts(s: string, base: nat, depth: int, e: bool)
    ensures Slices(s, base, Cuts(s, base, depth, e)) == Parts(s, depth, e)
    decreases |s|, 1
  {
    if s == "" {
    } else if s[0] == ',' && depth == 0 {
      CutsMakePartsComma(s, base, depth, e);
    } else {
      CutsMakePartsToken(s, base, depth, e);
    }
  }

  lemma {:induction false} CutsMakePartsComma(s: string, base: nat, depth: int, e: bool)
    requires s != "" && s[0] == ',' && depth == 0
    ensures Slices(s, base, Cuts(s, base, depth, e)) == Parts(s, depth, e)
    decreases |s|, 0
  {
    CommaFirst(s, base, depth, e);
    CutsMakeParts(s[1..], base + 1, depth, e);
    SlicesCut(s, base, Cuts(s[1..], base + 1, depth, e));
  }

  lemma {:induction false} CutsMakePartsToken(s: string, base: nat, depth: int, e: bool)
    requires s != "" && !(s[0] == ',' && depth == 0)
    ensures Slices(s, base, Cuts(s, base, depth, e)) == Parts(s, depth, e)
    decreases |s|, 0
  {
    var k, d := FirstToken(s, base, depth, e);
    CutsMakeParts(s[k..], base + k, d, e);
    CutsAfter(s[k..], base + k, d, e);
    TokenSliced(s, k, base, Cuts(s, base, depth, e), Parts(s, depth, e), Parts(s[k..], d, e));
  }

  /** `split_top`: the stripped parts of the list. */
  method SplitTop(s: string) returns (parts: seq<string>)
    ensures parts == Kept(Parts(s, 0, true))
  {
    var cuts := ScanSeparators(s);
    CutsWithin(s, 0, 0, true);
    CutsMakeParts(s, 0, 0, true);
    var pieces := SliceAll(s, cuts);
    parts := Kept(pieces);
  }

  /** The pieces taken before the cut `k`, with the slices of the rest, are all the slices. */
  ghost predicate Slicing(s: string, prev: nat, cuts: seq<nat>, k: nat, pieces: seq<string>) {
    && k <= |cuts|
    && prev == (if k == 0 then 0 else cuts[k - 1] + 1)
    && prev <= |s|
    && pieces + Slices(s[prev..], prev, cuts[k..]) == Slices(s, 0, cuts)
  }

  method SliceAll(s: string, cuts: seq<nat>) returns (pieces: seq<string>)
    requires Within(cuts, 0, |s|)
    ensures pieces == Slices(s, 0, cuts)
  {
    pieces := [];
    var prev: nat := 0;
    SlicingStart(s, cuts);
    for k := 0 to |cuts|
      invariant Slicing(s, prev, cuts, k, pieces)
    {
      SlicingStep(s, prev, cuts, k, pieces);
      pieces := pieces + [s[prev..cuts[k]]];
      prev := cuts[k] + 1;
    }
    SlicingEnd(s, prev, cuts, pieces);
    pieces := pieces + [s[prev..]];
  }

  lemma {:induction false} SlicingStart(s: string, cuts: seq<nat>)
    ensures Slicing(s, 0, cuts, 0, [])
  {
    assert s[0..] == s && cuts[0..] == cuts;
  }

  lemma {:induction false} SlicingStep(s: string, prev: nat, cuts: seq<nat>, k: nat, pieces: seq<string>)
    requires k < |cuts| && Within(cuts, 0, |s|) && Slicing(s, prev, cuts, k, pieces)
    ensures prev <= cuts[k] && Slicing(s, cuts[k] + 1, cuts, k + 1, pieces + [s[prev..cuts[k]]])
  {
    SliceStep(s, prev, cuts, k, pieces);
  }

  lemma {:induction false} SlicingEnd(s: string, prev: nat, cuts: seq<nat>, pieces: seq<string>)
    requires Slicing(s, prev, cuts, |cuts|, pieces)
    ensures pieces + [s[prev..]] == Slices(s, 0, cuts)
  {
    assert cuts[|cuts|..] == [];
  }

  lemma {:induction false} SliceStep(s: string, prev: nat, cuts: seq<nat>, k: nat, pieces: seq<string>)
    requires k < |cuts| && prev <= cuts[k] < |s|
    ensures pieces + Slices(s[prev..], prev, cuts[k..])
         == (pieces + [s[prev..cuts[k]]]) + Slices(s[cuts[k] + 1..], cuts[k] + 1, cuts[k + 1..])
  {
    assert cuts[k..][0] == cuts[k] && cuts[k..][1..] == cuts[k + 1..];
    assert s[prev..][..cuts[k] - prev] == s[prev..cuts[k]];
    assert s[prev..][cuts[k] - prev + 1..] == s[cuts[k] + 1..];
  }

  // ---------------------------------------------------------------- the arity

  predicate Starts(s: string, word: string) { |s| >= |word| && s[..|word|] == word }

  /** The length of the modifier at the head of `s`, if a space follows it. */
  function ModifierLen(s: string): (n: nat)
    ensures n < |s| || n == 0
  {
    if Starts(s, "mut") && |s| > 3 && PySpace(s[3]) then 3
    else if Starts(s, "unsafe") && |s| > 6 && PySpace(s[6]) then 6
    else if Starts(s, "checked") && |s| > 7 && PySpace(s[7]) then 7
    else 0
  }

  /** The modifiers and the name of a self parameter. */
  predicate SelfTail(s: string)
    decreases |s|
  {
    if Starts(s, "self") then Blank(s[4..])
    else ModifierLen(s) > 0 && SelfTail(TrimLeft(s[ModifierLen(s)..]))
  }

  /** `SELF_PARAM`: the whole token, borrowed or not. */
  predicate IsSelf(p: string) { SelfTail(TrimLeft(if p != "" && p[0] == '&' then p[1..] else p)) }

  /** A modifier and the white space after it. */
  predicate Modifier(m: (string, string)) {
    m.0 in {"mut", "unsafe", "checked"} && m.1 != "" && Blank(m.1)
  }

  function Modified(ms: seq<(string, string)>, tail: string): string {
    if ms == [] then "self" + tail else ms[0].0 + (ms[0].1 + Modified(ms[1..], tail))
  }

  ghost predicate SelfForm(s: string, ms: seq<(string, string)>, tail: string) {
    s == Modified(ms, tail) && Blank(tail) && forall m :: m in ms ==> Modifier(m)
  }

  /** Exactly the self parameters: perhaps a borrow, white space, any modifiers with white space
      after each, the word itself and white space. */
  lemma {:induction false} SelfIff(p: string)
    ensures IsSelf(p) <==>
            exists amp: string, lead: string, s: string, ms: seq<(string, string)>, tail: string ::
              p == amp + (lead + s) && amp in {"", "&"} && Blank(lead) && SelfForm(s, ms, tail)
  {
    if IsSelf(p) {
      var amp := if p != "" && p[0] == '&' then "&" else "";
      var rest := p[|amp|..];
      var lead := LeadingBlanks(rest);
      var ms, tail := SelfReads(TrimLeft(rest));
      assert p == amp + rest;
      assert p == amp + (lead + TrimLeft(rest));
    }
    if amp: string, lead: string, s: string, ms: seq<(string, string)>, tail: string :|
      p == amp + (lead + s) && amp in {"", "&"} && Blank(lead) && SelfForm(s, ms, tail)
    {
      SelfPrints(ms, tail);
      BlanksBefore(lead, s);
      FirstIsNoBorrow(lead, s);
      if amp == "&" {
        assert p[1..] == lead + s;
      } else {
        assert p == lead + s;
      }
    }
  }

  lemma {:induction false} LeadingBlanks(s: string) returns (lead: string)
    ensures Blank(lead) && s == lead + TrimLeft(s)
  {
    if s != "" && PySpace(s[0]) {
      var more := LeadingBlanks(s[1..]);
      lead := [s[0]] + more;
      assert s == [s[0]] + s[1..];
    } else {
      lead := "";
    }
  }

  lemma {:induction false} BlanksBefore(lead: string, s: string)
    requires Blank(lead) && s != "" && !PySpace(s[0])
    ensures TrimLeft(lead + s) == s
  {
    if lead == "" {
      assert lead + s == s;
    } else {
      assert (lead + s)[1..] == lead[1..] + s;
      BlanksBefore(lead[1..], s);
    }
  }

  lemma {:induction false} FirstIsNoBorrow(lead: string, s: string)
    requires Blank(lead) && s != "" && s[0] != '&'
    ensures (lead + s)[0] != '&'
  {
  }

  lemma {:induction false} SelfReads(s: string) returns (ms: seq<(string, string)>, tail: string)
    requires SelfTail(s)
    ensures SelfForm(s, ms, tail)
    decreases |s|
  {
    if Starts(s, "self") {
      ms, tail := [], s[4..];
    } else {
      var n := ModifierLen(s);
      var rest := TrimLeft(s[n..]);
      var gap := LeadingBlanks(s[n..]);
      assert gap != "" by {
        assert PySpace(s[n..][0]);
      }
      var more;
      more, tail := SelfReads(rest);
      ms := [(s[..n], gap)] + more;
      assert s == s[..n] + (gap + rest) && ms[1..] == more;
    }
  }

  lemma {:induction false} SelfPrints(ms: seq<(string, string)>, tail: string)
    requires Blank(tail) && forall m :: m in ms ==> Modifier(m)
    ensures var s := Modified(ms, tail); s != "" && !PySpace(s[0]) && s[0] != '&' && SelfTail(s)
    decreases |ms|
  {
    var s := Modified(ms, tail);
    if ms == [] {
      assert s[..4] == "self" && s[4..] == tail;
    } else {
      assert ms[0] in ms && forall m :: m in ms[1..] ==> m in ms;
      SelfPrints(ms[1..], tail);
      ModifierReads(ms[0].0, ms[0].1 + Modified(ms[1..], tail));
      BlanksBefore(ms[0].1, Modified(ms[1..], tail));
    }
  }

  lemma {:induction false} ModifierReads(word: string, rest: string)
    requires word in {"mut", "unsafe", "checked"} && rest != "" && PySpace(rest[0])
    ensures var s := word + rest; !Starts(s, "self") && ModifierLen(s) == |word| && s[|word|..] == rest
    ensures !PySpace(word[0]) && word[0] != '&'
  {
    var s := word + rest;
    assert s[0] == word[0] && s[|word|..] == rest && s[..|word|] == word;
    assert s[|word|] == rest[0];
    FirstOfWord(s, "self");
    FirstOfWord(s, "mut");
    FirstOfWord(s, "unsafe");
    FirstOfWord(s, "checked");
  }

  lemma {:induction false} FirstOfWord(s: string, word: string)
    requires word != ""
    ensures Starts(s, word) ==> s != "" && s[0] == word[0]
  {
    if Starts(s, word) {
      assert s[..|word|][0] == s[0];
    }
  }

  /** `p.split(":", 1)[-1]`. */
  function AfterColon(p: string): string {
    if ':' !in p then p else if p[0] == ':' then p[1..] else AfterColon(p[1..])
  }

  predicate HasDefault(p: string) { '=' in AfterColon(p) }

  function Defaulted(parts: seq<string>): (n: nat)
    ensures n <= |parts|
  {
    if parts == [] then 0 else (if HasDefault(parts[0]) then 1 else 0) + Defaulted(parts[1..])
  }

  datatype Arity = Arity(required: nat, total: nat)

  function ArityOfParts(parts: seq<string>): Arity {
    var args := if parts != [] && IsSelf(parts[0]) then parts[1..] else parts;
    Arity(|args| - Defaulted(args), |args|)
  }

  /** `arity_of`: how many arguments a call must give, and how many it may. */
  method ArityOf(params: string) returns (arity: Arity)
    ensures arity == ArityOfParts(Kept(Parts(params, 0, true)))
  {
    var parts := SplitTop(params);
    if parts != [] && IsSelf(parts[0]) {
      parts := parts[1..];
    }
    arity := Arity(|parts| - Defaulted(parts), |parts|);
  }

  // ---------------------------------------------------------------- declared parameters

  /** A parameter as it is declared; spaces belong to the three texts. */
  datatype Param = Param(name: Text, ty: Text, default: Option<Text>)

  function TypeAndDefault(p: Param): Text {
    match p.default case None => p.ty case Some(d) => Append(p.ty, Ch('=', d))
  }

  function Declared(p: Param): Text { Append(p.name, Ch(':', TypeAndDefault(p))) }

  predicate GoodParam(p: Param) {
    && Balanced(p.name, true) && ':' !in Print(p.name) && Balanced(p.ty, true)
    && (p.default.Some? ==> Balanced(p.default.value, true))
  }

  /** The gate takes what holds an equals sign for a parameter with a default. */
  predicate LooksOptional(p: Param) { p.default.Some? || '=' in Print(p.ty) }

  lemma {:induction false} DeclaredBalanced(p: Param)
    requires GoodParam(p)
    ensures Balanced(Declared(p), true)
  {
    if p.default.Some? {
      AppendBalanced(p.ty, Ch('=', p.default.value), true);
    }
    AppendBalanced(p.name, Ch(':', TypeAndDefault(p)), true);
  }

  lemma {:induction false} AfterColonIs(a: string, b: string)
    requires ':' !in a
    ensures AfterColon(a + [':'] + b) == b
    decreases |a|
  {
    var all := a + [':'] + b;
    assert all[|a|] == ':';
    if a == "" {
      assert all[1..] == b;
    } else {
      assert a[0] in a;
      assert all[1..] == a[1..] + [':'] + b;
      AfterColonIs(a[1..], b);
    }
  }

  /** What no self parameter holds. */
  predicate NeverInSelf(c: char) { c == ':' || c == ',' || Loose(c) }

  lemma {:induction false} ModifierLacks(s: string, c: char)
    requires NeverInSelf(c)
    ensures c !in s[..ModifierLen(s)]
  {
  }

  lemma {:induction false} SelfLacks(s: string, c: char)
    requires SelfTail(s) && NeverInSelf(c)
    ensures c !in s
    decreases |s|
  {
    if Starts(s, "self") {
      assert s == "self" + s[4..];
    } else {
      var n := ModifierLen(s);
      ModifierLacks(s, c);
      SelfLacks(TrimLeft(s[n..]), c);
      TrimLeftKeeps(s[n..], c);
      assert s == s[..n] + s[n..];
    }
  }

  lemma {:induction false} SelfParamLacks(p: string, c: char)
    requires IsSelf(p) && NeverInSelf(c)
    ensures c !in p
  {
    var t := if p != "" && p[0] == '&' then p[1..] else p;
    SelfLacks(TrimLeft(t), c);
    TrimLeftKeeps(t, c);
    assert p != "" ==> p == [p[0]] + p[1..];
  }

  lemma {:induction false} SelfIsNoParam(p: string)
    requires ':' in p
    ensures !IsSelf(p)
  {
    if IsSelf(p) {
      SelfParamLacks(p, ':');
    }
  }

  /** What one declared parameter comes to once it is cut out and stripped. */
  lemma {:induction false} DeclaredReads(p: Param)
    requires GoodParam(p)
    ensures var s := Strip(Print(Declared(p)));
      s != "" && !IsSelf(s) && (HasDefault(s) <==> LooksOptional(p))
  {
    var rest := Print(TypeAndDefault(p));
    AppendPrints(p.name, Ch(':', TypeAndDefault(p)));
    assert Print(p.name) + ([':'] + rest) == Print(p.name) + [':'] + rest;
    StripAround(Print(p.name), ':', rest);
    TrimLeftKeeps(Print(p.name), ':');
    var s := TrimLeft(Print(p.name)) + [':'] + TrimRight(rest);
    assert s[|TrimLeft(Print(p.name))|] == ':';
    SelfIsNoParam(s);
    AfterColonIs(TrimLeft(Print(p.name)), TrimRight(rest));
    TrimRightKeeps(rest, '=');
    DefaultShows(p);
  }

  lemma {:induction false} DefaultShows(p: Param)
    requires GoodParam(p)
    ensures '=' in Print(TypeAndDefault(p)) <==> LooksOptional(p)
  {
    match p.default
    case None =>
    case Some(d) =>
      AppendPrints(p.ty, Ch('=', d));
      assert (Print(p.ty) + (['='] + Print(d)))[|Print(p.ty)|] == '=';
  }

  function DeclaredAll(ps: seq<Param>): (items: seq<Text>)
    ensures |items| == |ps| && forall i :: 0 <= i < |ps| ==> items[i] == Declared(ps[i])
  {
    if ps == [] then [] else [Declared(ps[0])] + DeclaredAll(ps[1..])
  }

  function Optional(ps: seq<Param>): (n: nat)
    ensures n <= |ps|
  {
    if ps == [] then 0 else (if ps[0].default.Some? then 1 else 0) + Optional(ps[1..])
  }

  function Apparent(ps: seq<Param>): (n: nat)
    ensures n <= |ps|
  {
    if ps == [] then 0 else (if LooksOptional(ps[0]) then 1 else 0) + Apparent(ps[1..])
  }

  /** No type holds an equals sign, except beside a default. */
  predicate EqualsFree(ps: seq<Param>) { forall p :: p in ps && p.default.None? ==> '=' !in Print(p.ty) }

  lemma {:induction false} ApparentIff(ps: seq<Param>)
    ensures Apparent(ps) >= Optional(ps) && (Apparent(ps) == Optional(ps) <==> EqualsFree(ps))
    decreases |ps|
  {
    if ps != [] {
      ApparentIff(ps[1..]);
      assert ps[0] in ps && forall p :: p in ps <==> p == ps[0] || p in ps[1..];
    }
  }

  lemma {:induction false} KeptDeclared(ps: seq<Param>)
    requires forall p :: p in ps ==> GoodParam(p)
    ensures var parts := Kept(Prints(DeclaredAll(ps)));
      |parts| == |ps| && Defaulted(parts) == Apparent(ps) && (ps != [] ==> !IsSelf(parts[0]))
    decreases |ps|
  {
    if ps != [] {
      assert ps[0] in ps;
      DeclaredReads(ps[0]);
      KeptDeclared(ps[1..]);
      var parts := Kept(Prints(DeclaredAll(ps)));
      assert Prints(DeclaredAll(ps))[1..] == Prints(DeclaredAll(ps[1..]));
      assert parts[1..] == Kept(Prints(DeclaredAll(ps[1..])));
    }
  }

  /** The declared list: a self parameter may come first. */
  function Items(me: Option<Text>, ps: seq<Param>): seq<Text> {
    (match me case None => [] case Some(t) => [t]) + DeclaredAll(ps)
  }

  predicate GoodList(me: Option<Text>, ps: seq<Param>) {
    && (me.Some? ==> Balanced(me.value, true) && IsSelf(Strip(Print(me.value))))
    && forall p :: p in ps ==> GoodParam(p)
  }

  lemma {:induction false} KeptItems(me: Option<Text>, ps: seq<Param>)
    requires GoodList(me, ps)
    ensures ArityOfParts(Kept(Prints(Items(me, ps)))) == Arity(|ps| - Apparent(ps), |ps|)
  {
    KeptDeclared(ps);
    match me
    case None =>
      assert Items(me, ps) == DeclaredAll(ps);
    case Some(t) =>
      assert Prints(Items(me, ps))[1..] == Prints(DeclaredAll(ps));
      assert Strip(Print(t)) != "";
  }

  lemma {:induction false} ItemsBalanced(me: Option<Text>, ps: seq<Param>)
    requires GoodList(me, ps)
    ensures forall t :: t in Items(me, ps) ==> Balanced(t, true)
  {
    forall i | 0 <= i < |ps| ensures Balanced(DeclaredAll(ps)[i], true) {
      assert ps[i] in ps;
      DeclaredBalanced(ps[i]);
    }
  }

  /** For every list of declared parameters, with any strings in the defaults: the list is cut
      into its parameters if and only if all of them but the last are level and none holds a
      comma nested as deep as the drift before it.  Then the total is the number of parameters,
      a self parameter not counting; and the number of required ones is right, those without a
      default, if and only if no other parameter holds an equals sign. */
  lemma {:induction false} ArityOfDeclared(me: Option<Text>, ps: seq<Param>)
    requires GoodList(me, ps)
    ensures var items := Items(me, ps);
      var parts := Parts(Print(Commas(items)), 0, true);
      var arity := ArityOfParts(Kept(parts));
      && (items != [] ==> (parts == Prints(items) <==> CutRight(items)))
      && (items == [] || CutRight(items) ==>
            arity.total == |ps| && (arity.required == |ps| - Optional(ps) <==> EqualsFree(ps)))
  {
    KeptItems(me, ps);
    ApparentIff(ps);
    if Items(me, ps) == [] {
      assert Kept([""]) == [] && ps == [];
    } else {
      ItemsBalanced(me, ps);
      PartsOfList(Items(me, ps), true);
    }
  }

  /** In particular for every list without arrows and without angles that compare. */
  lemma {:induction false} TightListIsCutRight(me: Option<Text>, ps: seq<Param>)
    requires GoodList(me, ps) && Items(me, ps) != []
    requires forall t :: t in Items(me, ps) ==> Tight(t) && NoTopComma(t)
    ensures CutRight(Items(me, ps))
  {
    ItemsBalanced(me, ps);
    TightIsCutRight(Items(me, ps), true);
  }

  // ---------------------------------------------------------------- where it goes wrong

  lemma {:induction false} CommasBalanced(items: seq<Text>, e: bool)
    requires forall t :: t in items ==> Balanced(t, e)
    ensures Balanced(Commas(items), e)
    decreases |items|
  {
    if items != [] {
      assert items[0] in items;
    }
    if |items| > 1 {
      CommasBalanced(items[1..], e);
      AppendBalanced(items[0], Ch(',', Commas(items[1..])), e);
    }
  }

  predicate CommaFree(t: Text) {
    match t
    case End => true
    case Ch(c, rest) => c != ',' && CommaFree(rest)
    case Arrow(rest) => CommaFree(rest)
    case Str(_, _, rest) => CommaFree(rest)
    case Group(_, inner, _, rest) => CommaFree(inner) && CommaFree(rest)
  }

  lemma {:induction false} CommaFreeIsDead(t: Text, nesting: nat, drift: int)
    requires CommaFree(t)
    ensures LiveCommas(t, nesting, drift) == 0
    decreases t
  {
    match t
    case End =>
    case Ch(c, rest) => CommaFreeIsDead(rest, nesting, drift + Turn(c));
    case Arrow(rest) => CommaFreeIsDead(rest, nesting, drift + 1);
    case Str(_, _, rest) => CommaFreeIsDead(rest, nesting, drift);
    case Group(_, inner, _, rest) =>
      CommaFreeIsDead(inner, nesting + 1, drift);
      CommaFreeIsDead(rest, nesting, drift + Drift(inner));
  }

  /** How many parts a list has, right or wrong: the scan splits it into as many as there are
      items if and only if it has one live comma less than items. */
  lemma {:induction false} CountOfParts(items: seq<Text>, e: bool)
    requires forall t :: t in items ==> Balanced(t, e)
    ensures var live := LiveCommas(Commas(items), 0, 0);
      && |Parts(Print(Commas(items)), 0, e)| == 1 + live
      && (live + 1 < |items| ==> |Kept(Parts(Print(Commas(items)), 0, e))| < |items|)
  {
    var t := Commas(items);
    CommasBalanced(items, e);
    LiveCommasCut(t, "", 0, 0, 0, 0 - Drift(t), LiveCommas(t, 0, 0), e);
    assert Print(t) + "" == Print(t);
    KeptIsShorter(Parts(Print(t), 0, e));
  }

  lemma {:induction false} KeptIsShorter(parts: seq<string>)
    ensures |Kept(parts)| <= |parts|
    decreases |parts|
  {
    if parts != [] {
      KeptIsShorter(parts[1..]);
    }
  }

  lemma {:induction false} ArrowShows(rest: Text)
    ensures '>' in Print(Arrow(rest))
  {
    assert Print(Arrow(rest))[1] == '>';
  }

  /** A printed text without commas and angles has none outside its literals either. */
  lemma {:induction false} PlainPrint(t: Text)
    requires ',' !in Print(t) && '<' !in Print(t) && '>' !in Print(t)
    ensures CommaFree(t) && Tight(t)
    decreases t
  {
    match t
    case End =>
    case Ch(c, rest) =>
      assert Print(t) == [c] + Print(rest) && c in Print(t);
      PlainPrint(rest);
    case Arrow(rest) => ArrowShows(rest);
    case Str(q, body, rest) =>
      assert forall x :: x in Print(rest) ==> x in Print(t);
      PlainPrint(rest);
    case Group(o, inner, c, rest) =>
      assert forall x :: x in Print(rest) ==> x in [c] + Print(rest);
      assert forall x :: x in Print(inner) || x in [c] + Print(rest) ==> x in Print(t);
      PlainPrint(inner);
      PlainPrint(rest);
  }

  lemma {:induction false} SelfIsLevel(t: Text)
    requires IsSelf(Strip(Print(t)))
    ensures Level(t)
  {
    StripLacks(Print(t), ',');
    StripLacks(Print(t), '<');
    StripLacks(Print(t), '>');
    PlainPrint(t);
    CommaFreeIsDead(t, 0, 0);
    TightIsLevel(t, 1);
  }

  lemma {:induction false} StripLacks(s: string, c: char)
    requires IsSelf(Strip(s)) && NeverInSelf(c)
    ensures c !in s
  {
    SelfParamLacks(Strip(s), c);
    TrimLeftKeeps(s, c);
    TrimRightKeeps(TrimLeft(s), c);
  }

  /** A self parameter is cut out whole. */
  lemma {:induction false} SelfComesFirst(t: Text, rest: seq<Text>, e: bool)
    requires Balanced(t, e) && IsSelf(Strip(Print(t)))
    ensures Parts(Print(Commas([t] + rest)), 0, e)[0] == Print(t)
  {
    SelfIsLevel(t);
    assert ([t] + rest)[1..] == rest;
    if rest == [] {
      PartsOfOne(t, e);
    } else {
      AppendPrints(t, Ch(',', Commas(rest)));
      FirstPart(t, Print(Commas(rest)), e);
    }
  }

  /** The first part of a list reaches past the colon of its first parameter. */
  lemma {:induction false} ColonComesFirst(name: Text, more: string, e: bool)
    requires Balanced(name, e) && CommaFree(name)
    ensures ':' in Parts(Print(name) + ([':'] + more), 0, e)[0]
  {
    CommaFreeIsDead(name, 0, 0);
    TextSkips(name, [':'] + more, 0, 0, 0, 0 - Drift(name), e);
    PartsChar(':', more, 0 - Drift(name), e);
    var parts := Parts(more, 0 - Drift(name), e);
    assert (Print(name) + ([':'] + parts[0]))[|Print(name)|] == ':';
  }

  lemma {:induction false} DeclaredFirst(ps: seq<Param>) returns (more: string)
    requires ps != []
    ensures Print(Commas(DeclaredAll(ps))) == Print(ps[0].name) + ([':'] + more)
  {
    var items := DeclaredAll(ps);
    var p := ps[0];
    AppendPrints(p.name, Ch(':', TypeAndDefault(p)));
    if |ps| == 1 {
      more := Print(TypeAndDefault(p));
    } else {
      AppendPrints(items[0], Ch(',', Commas(items[1..])));
      more := Print(TypeAndDefault(p)) + ([','] + Print(Commas(items[1..])));
      Regroup(Print(p.name), [':'] + Print(TypeAndDefault(p)), [','] + Print(Commas(items[1..])));
      Regroup([':'], Print(TypeAndDefault(p)), [','] + Print(Commas(items[1..])));
    }
  }

  lemma {:induction false} KeptAll(parts: seq<string>)
    requires forall p :: p in parts ==> !Blank(p)
    ensures |Kept(parts)| == |parts| && (parts != [] ==> Kept(parts)[0] == Strip(parts[0]))
    decreases |parts|
  {
    if parts != [] {
      assert parts[0] in parts;
      StripBlank(parts[0]);
      KeptAll(parts[1..]);
    }
  }

  /** The first part is read as self exactly when there is a self parameter. */
  lemma {:induction false} SelfIsSeen(me: Option<Text>, ps: seq<Param>, e: bool)
    requires GoodList(me, ps) && Items(me, ps) != [] && e
    requires ps != [] ==> CommaFree(ps[0].name)
    ensures IsSelf(Strip(Parts(Print(Commas(Items(me, ps))), 0, e)[0])) <==> me.Some?
  {
    match me
    case Some(t) =>
      SelfComesFirst(t, DeclaredAll(ps), e);
    case None =>
      assert Items(me, ps) == DeclaredAll(ps) && ps[0] in ps;
      var more := DeclaredFirst(ps);
      ColonComesFirst(ps[0].name, more, e);
      var first := Parts(Print(Commas(Items(me, ps))), 0, e)[0];
      TrimLeftKeeps(first, ':');
      TrimRightKeeps(TrimLeft(first), ':');
      SelfIsNoParam(Strip(first));
  }

  /** Right or wrong: if no part is blank, the total is the number of parameters if and only if
      the list has one live comma less than items. */
  lemma {:induction false} TotalIff(me: Option<Text>, ps: seq<Param>, e: bool)
    requires GoodList(me, ps) && Items(me, ps) != [] && e && (ps != [] ==> CommaFree(ps[0].name))
    requires forall p :: p in Parts(Print(Commas(Items(me, ps))), 0, e) ==> !Blank(p)
    ensures ArityOfParts(Kept(Parts(Print(Commas(Items(me, ps))), 0, e))).total == |ps|
       <==> LiveCommas(Commas(Items(me, ps)), 0, 0) + 1 == |Items(me, ps)|
  {
    ItemsBalanced(me, ps);
    CountOfParts(Items(me, ps), e);
    SelfIsSeen(me, ps, e);
    KeptAll(Parts(Print(Commas(Items(me, ps))), 0, e));
    assert |Items(me, ps)| == |ps| + if me.Some? then 1 else 0;
  }

  /** A text like `f: fn` or `Map`: without arrows and commas. */
  predicate Simple(t: Text, e: bool) { Item(t, e) && Tight(t) && CommaFree(t) }

  /** What follows simple text is as live as it was. */
  lemma {:induction false} SimpleThen(t: Text, more: Text, nesting: nat, drift: int)
    requires Tight(t) && CommaFree(t)
    ensures LiveCommas(Append(t, more), nesting, drift) == LiveCommas(more, nesting, drift)
    ensures Drift(Append(t, more)) == Drift(more)
    decreases t
  {
    match t
    case End =>
    case Ch(_, rest) => SimpleThen(rest, more, nesting, drift);
    case Str(_, _, rest) => SimpleThen(rest, more, nesting, drift);
    case Group(_, inner, _, rest) =>
      CommaFreeIsDead(inner, nesting + 1, drift);
      TightIsLevel(inner, 1);
      SimpleThen(rest, more, nesting, drift);
  }

  /** `h: (fn(A) -> B, C)`: one parameter. */
  function ArrowInTuple(x: Text, inner: Text): Text { Append(x, Group('(', inner, ')', End)) }

  /** The arrow makes a separator of the comma inside the parentheses: it is read as two. */
  lemma {:induction false} TupleIsCut(x: Text, y: Text, v: Text, w: Text, e: bool)
    requires Simple(x, e) && Simple(y, e) && Simple(v, e) && Simple(w, e)
    ensures var h := ArrowInTuple(x, Append(y, Arrow(Append(v, Ch(',', w)))));
      Item(h, e) && |Parts(Print(h), 0, e)| == 2
  {
    var pair := Append(v, Ch(',', w));
    AppendBalanced(v, Ch(',', w), e);
    AppendBalanced(y, Arrow(pair), e);
    InBrackets(x, '(', Append(y, Arrow(pair)), ')', e);
    TupleIsLive(x, y, v, w);
    OneLiveComma(ArrowInTuple(x, Append(y, Arrow(pair))), e);
  }

  lemma {:induction false} InBrackets(x: Text, o: char, inner: Text, c: char, e: bool)
    requires Item(x, e) && Balanced(inner, e) && Opens(o) && Closes(c)
    ensures Item(Append(x, Group(o, inner, c, End)), e)
  {
    AppendItem(x, Group(o, inner, c, End), e);
  }

  lemma {:induction false} OneLiveComma(h: Text, e: bool)
    requires Balanced(h, e) && LiveCommas(h, 0, 0) == 1
    ensures |Parts(Print(h), 0, e)| == 2
  {
    CountOfParts([h], e);
  }

  lemma {:induction false} TupleIsLive(x: Text, y: Text, v: Text, w: Text)
    requires Tight(x) && CommaFree(x) && Tight(y) && CommaFree(y)
    requires Tight(v) && CommaFree(v) && CommaFree(w)
    ensures LiveCommas(ArrowInTuple(x, Append(y, Arrow(Append(v, Ch(',', w))))), 0, 0) == 1
  {
    var pair := Append(v, Ch(',', w));
    CommaFreeIsDead(w, 1, 1);
    SimpleThen(v, Ch(',', w), 1, 1);
    SimpleThen(y, Arrow(pair), 1, 0);
    SimpleThen(x, Group('(', Append(y, Arrow(pair)), ')', End), 0, 0);
  }

  /** `f: fn(A) -> B` and `m: Map<K, V>`: two parameters. */
  function ArrowItem(x: Text, y: Text): Text { Append(x, Arrow(y)) }

  function PairItem(n: Text, k: Text, v: Text): Text { Append(n, Group('<', Append(k, Ch(',', v)), '>', End)) }

  /** The arrow hides the comma between the two, and makes a separator of the one inside the
      brackets that follow: as many parts as parameters, so that the arity is right, but the
      parts are not the parameters. */
  lemma {:induction false} RightCountWrongCut(x: Text, y: Text, n: Text, k: Text, v: Text, e: bool)
    requires Simple(x, e) && Simple(y, e) && Simple(n, e) && Simple(k, e) && Simple(v, e)
    ensures Item(ArrowItem(x, y), e) && Item(PairItem(n, k, v), e)
    ensures RightCountOnly(ArrowItem(x, y), PairItem(n, k, v), e)
  {
    ArrowItemIs(x, y, e);
    PairItemIs(n, k, v, e);
    PairIsLive(x, y, n, k, v);
    TwoItems(ArrowItem(x, y), PairItem(n, k, v), e);
  }

  lemma {:induction false} ArrowItemIs(x: Text, y: Text, e: bool)
    requires Simple(x, e) && Simple(y, e)
    ensures Item(ArrowItem(x, y), e) && !Level(ArrowItem(x, y))
  {
    AppendItem(x, Arrow(y), e);
    SimpleThen(x, Arrow(y), 0, 0);
    TightIsLevel(y, 1);
  }

  lemma {:induction false} PairItemIs(n: Text, k: Text, v: Text, e: bool)
    requires Simple(n, e) && Simple(k, e) && Simple(v, e)
    ensures Item(PairItem(n, k, v), e)
  {
    AppendBalanced(k, Ch(',', v), e);
    InBrackets(n, '<', Append(k, Ch(',', v)), '>', e);
  }

  /** Two items are read as two parts that are not the items. */
  predicate RightCountOnly(f: Text, m: Text, e: bool) {
    var parts := Parts(Print(Commas([f, m])), 0, e);
    |parts| == 2 && parts != Prints([f, m])
  }

  lemma {:induction false} TwoItems(f: Text, m: Text, e: bool)
    requires Item(f, e) && Item(m, e) && !Level(f) && LiveCommas(Append(f, Ch(',', m)), 0, 0) == 1
    ensures RightCountOnly(f, m, e)
  {
    var items := [f, m];
    assert items[1..] == [m];
    assert Commas(items) == Append(f, Ch(',', m));
    CountOfParts(items, e);
    PartsOfList(items, e);
    assert !Level(items[0]);
  }

  lemma {:induction false} PairAloneIsLive(n: Text, k: Text, v: Text)
    requires Tight(n) && CommaFree(n) && Tight(k) && CommaFree(k) && CommaFree(v)
    ensures LiveCommas(PairItem(n, k, v), 0, 1) == 1
  {
    CommaFreeIsDead(v, 1, 1);
    SimpleThen(k, Ch(',', v), 1, 1);
    SimpleThen(n, Group('<', Append(k, Ch(',', v)), '>', End), 0, 1);
  }

  lemma {:induction false} AfterArrow(x: Text, y: Text, m: Text)
    requires Tight(x) && CommaFree(x) && Tight(y) && CommaFree(y)
    ensures LiveCommas(Append(ArrowItem(x, y), Ch(',', m)), 0, 0) == LiveCommas(m, 0, 1)
  {
    AppendTwice(x, Arrow(y), Ch(',', m));
    SimpleThen(y, Ch(',', m), 0, 1);
    SimpleThen(x, Arrow(Append(y, Ch(',', m))), 0, 0);
  }

  lemma {:induction false} PairIsLive(x: Text, y: Text, n: Text, k: Text, v: Text)
    requires Tight(x) && CommaFree(x) && Tight(y) && CommaFree(y)
    requires Tight(n) && CommaFree(n) && Tight(k) && CommaFree(k) && CommaFree(v)
    ensures LiveCommas(Append(ArrowItem(x, y), Ch(',', PairItem(n, k, v))), 0, 0) == 1
  {
    PairAloneIsLive(n, k, v);
    AfterArrow(x, y, PairItem(n, k, v));
  }

  lemma {:induction false} AppendTwice(t: Text, more: Text, most: Text)
    ensures Append(Append(t, more), most) == Append(t, Append(more, most))
    decreases t
  {
    if !t.End? {
      AppendTwice(t.rest, more, most);
    }
  }

  // ---------------------------------------------------------------- the end of a call

  /** The search goes past `x`, from `depth` to `to`. */
  ghost predicate Passes(x: string, s: string, base: nat, depth: int, to: int, e: bool) {
    Closer(x + s, base, depth, e) == Closer(s, base + |x|, to, e)
  }

  /** The search ends in `x`. */
  ghost predicate StopsInside(x: string, s: string, base: nat, depth: int, e: bool) {
    var k := Closer(x + s, base, depth, e);
    k.Some? && k.value < base + |x|
  }

  lemma {:induction false} CloserChar(c: char, s: string, base: nat, depth: int, e: bool)
    requires !Quote(c) && !(Closes(c) && depth == 0)
    ensures Closer([c] + s, base, depth, e) == Closer(s, base + 1, Deeper(c, depth), e)
  {
    assert ([c] + s)[1..] == s;
  }

  lemma {:induction false} PassChar(c: char, x: string, s: string, base: nat, depth: int, to: int, e: bool)
    requires !Quote(c) && !(Closes(c) && depth == 0) && Passes(x, s, base + 1, Deeper(c, depth), to, e)
    ensures Passes([c] + x, s, base, depth, to, e)
  {
    CloserChar(c, x + s, base, depth, e);
    Regroup([c], x, s);
  }

  lemma {:induction false} PassArrow(x: string, s: string, base: nat, depth: int, to: int, e: bool)
    requires depth != 0 && Passes(x, s, base + 2, depth - 1, to, e)
    ensures Passes("->" + x, s, base, depth, to, e)
  {
    ArrowDepths(depth);
    PassChar('>', x, s, base + 1, depth, to, e);
    PassChar('-', ['>'] + x, s, base, depth, to, e);
    assert ['-'] + (['>'] + x) == "->" + x;
  }

  lemma {:induction false} StringPassed(q: char, body: seq<Piece>, x: string, s: string, base: nat, depth: int, e: bool)
    requires Quote(q) && GoodBody(body, q, e)
    ensures Closer([q] + (PrintBody(body) + [q] + x) + s, base, depth, e)
         == Closer(x + s, base + (|PrintBody(body)| + 2), depth, e)
  {
    var tail := PrintBody(body) + [q] + (x + s);
    BodyLength(body, q, e, x + s);
    Reassociate(q, PrintBody(body), x, s);
    assert ([q] + tail)[1..] == tail;
    assert ([q] + tail)[1 + (|PrintBody(body)| + 1)..] == x + s;
  }

  lemma {:induction false} PassString(q: char, body: seq<Piece>, x: string, s: string, base: nat, depth: int, to: int,
                                      e: bool)
    requires Quote(q) && GoodBody(body, q, e) && Passes(x, s, base + (|PrintBody(body)| + 2), depth, to, e)
    ensures Passes([q] + (PrintBody(body) + [q] + x), s, base, depth, to, e)
  {
    StringPassed(q, body, x, s, base, depth, e);
  }

  lemma {:induction false} PassBoth(x: string, y: string, s: string, base: nat, depth: int, mid: int, to: int, e: bool)
    requires Passes(x, y + s, base, depth, mid, e) && Passes(y, s, base + |x|, mid, to, e)
    ensures Passes(x + y, s, base, depth, to, e)
  {
    Regroup(x, y, s);
  }

  lemma {:induction false} PassGroup(o: char, inner: string, c: char, x: string, s: string,
                                     base: nat, depth: nat, mid: nat, to: int, e: bool)
    requires Opens(o) && Closes(c) && Passes(x, s, base + 1 + |inner| + 1, mid, to, e)
    requires Passes(inner, [c] + x + s, base + 1, depth + 1, mid + 1, e)
    ensures Passes([o] + (inner + ([c] + x)), s, base, depth, to, e)
  {
    PassChar(c, x, s, base + 1 + |inner|, mid + 1, to, e);
    PassBoth(inner, [c] + x, s, base + 1, depth + 1, mid + 1, to, e);
    PassChar(o, inner + ([c] + x), s, base, depth, to, e);
  }

  lemma {:induction false} StopAfterChar(c: char, x: string, s: string, base: nat, depth: int, e: bool)
    requires !Quote(c) && !(Closes(c) && depth == 0) && StopsInside(x, s, base + 1, Deeper(c, depth), e)
    ensures StopsInside([c] + x, s, base, depth, e)
  {
    CloserChar(c, x + s, base, depth, e);
    Regroup([c], x, s);
  }

  lemma {:induction false} StopAfterOpen(o: char, x: string, s: string, base: nat, depth: int, e: bool)
    requires Opens(o) && StopsInside(x, s, base + 1, depth + 1, e)
    ensures StopsInside([o] + x, s, base, depth, e)
  {
    StopAfterChar(o, x, s, base, depth, e);
  }

  lemma {:induction false} StopAtClose(c: char, x: string, s: string, base: nat, depth: nat, e: bool)
    requires Closes(c) && (depth > 0 ==> StopsInside(x, s, base + 1, depth - 1, e))
    ensures StopsInside([c] + x, s, base, depth, e)
  {
    if depth > 0 {
      StopAfterChar(c, x, s, base, depth, e);
    } else {
      assert ([c] + x + s)[0] == c;
    }
  }

  lemma {:induction false} StopAtArrow(x: string, s: string, base: nat, depth: nat, e: bool)
    requires depth > 0 ==> StopsInside(x, s, base + 2, depth - 1, e)
    ensures StopsInside("->" + x, s, base, depth, e)
  {
    ArrowDepths(depth);
    StopAtClose('>', x, s, base + 1, depth, e);
    StopAfterChar('-', ['>'] + x, s, base, depth, e);
    assert ['-'] + (['>'] + x) == "->" + x;
  }

  lemma {:induction false} StopAfterString(q: char, body: seq<Piece>, x: string, s: string, base: nat, depth: int,
                                           e: bool)
    requires Quote(q) && GoodBody(body, q, e) && StopsInside(x, s, base + (|PrintBody(body)| + 2), depth, e)
    ensures StopsInside([q] + (PrintBody(body) + [q] + x), s, base, depth, e)
  {
    StringPassed(q, body, x, s, base, depth, e);
  }

  lemma {:induction false} StopEarlier(x: string, y: string, s: string, base: nat, depth: int, e: bool)
    requires StopsInside(x, y + s, base, depth, e)
    ensures StopsInside(x + y, s, base, depth, e)
  {
    Regroup(x, y, s);
  }

  lemma {:induction false} StopLater(x: string, y: string, s: string, base: nat, depth: int, mid: int, e: bool)
    requires Passes(x, y + s, base, depth, mid, e) && StopsInside(y, s, base + |x|, mid, e)
    ensures StopsInside(x + y, s, base, depth, e)
  {
    Regroup(x, y, s);
  }

  /** Nothing closes where the nesting equals the drift: no bracket, no arrow, no angle. */
  predicate Held(t: Text, nesting: nat, drift: int) {
    match t
    case End => true
    case Ch(c, rest) => !(c == '>' && nesting == drift) && Held(rest, nesting, drift + Turn(c))
    case Arrow(rest) => nesting != drift && Held(rest, nesting, drift + 1)
    case Str(_, _, rest) => Held(rest, nesting, drift)
    case Group(_, inner, _, rest) =>
      && Held(inner, nesting + 1, drift) && nesting + 1 != drift + Drift(inner)
      && Held(rest, nesting, drift + Drift(inner))
  }

  lemma {:induction false} HeldEnds(t: Text, nesting: nat, drift: int)
    requires Held(t, nesting, drift) && drift <= nesting
    ensures drift + Drift(t) <= nesting
    decreases t
  {
    match t
    case End =>
    case Ch(c, rest) => HeldEnds(rest, nesting, drift + Turn(c));
    case Arrow(rest) => HeldEnds(rest, nesting, drift + 1);
    case Str(_, _, rest) => HeldEnds(rest, nesting, drift);
    case Group(_, inner, _, rest) =>
      HeldEnds(inner, nesting + 1, drift);
      HeldEnds(rest, nesting, drift + Drift(inner));
  }

  /** The search goes past text that is held. */
  lemma {:induction false} CloserSkips(t: Text, s: string, base: nat, nesting: nat, drift: int, depth: nat, to: int,
                                       e: bool)
    requires Balanced(t, e) && Held(t, nesting, drift)
    requires depth == nesting - drift && to == depth - Drift(t)
    ensures Passes(Print(t), s, base, depth, to, e)
    decreases t
  {
    match t
    case End => assert "" + s == s;
    case Ch(c, rest) =>
      CloserSkips(rest, s, base + 1, nesting, drift + Turn(c), Deeper(c, depth), to, e);
      PassChar(c, Print(rest), s, base, depth, to, e);
    case Arrow(rest) =>
      CloserSkips(rest, s, base + 2, nesting, drift + 1, depth - 1, to, e);
      PassArrow(Print(rest), s, base, depth, to, e);
    case Str(q, body, rest) =>
      CloserSkips(rest, s, base + (|PrintBody(body)| + 2), nesting, drift, depth, to, e);
      PassString(q, body, Print(rest), s, base, depth, to, e);
    case Group(o, inner, c, rest) =>
      HeldEnds(inner, nesting + 1, drift);
      var mid := depth - Drift(inner);
      CloserSkips(rest, s, base + 1 + |Print(inner)| + 1, nesting, drift + Drift(inner), mid, to, e);
      CloserSkips(inner, [c] + Print(rest) + s, base + 1, nesting + 1, drift, depth + 1, mid + 1, e);
      PassGroup(o, Print(inner), c, Print(rest), s, base, depth, mid, to, e);
  }

  /** It ends in text that is not. */
  lemma {:induction false} CloserStops(t: Text, s: string, base: nat, nesting: nat, drift: int, depth: nat, e: bool)
    requires Balanced(t, e) && !Held(t, nesting, drift) && depth == nesting - drift
    ensures StopsInside(Print(t), s, base, depth, e)
    decreases t, 1
  {
    match t
    case Ch(c, rest) =>
      if c == '>' {
        if depth > 0 {
          CloserStops(rest, s, base + 1, nesting, drift + 1, depth - 1, e);
        }
        StopAtClose(c, Print(rest), s, base, depth, e);
      } else {
        CloserStops(rest, s, base + 1, nesting, drift + Turn(c), Deeper(c, depth), e);
        StopAfterChar(c, Print(rest), s, base, depth, e);
      }
    case Arrow(rest) =>
      if depth > 0 {
        CloserStops(rest, s, base + 2, nesting, drift + 1, depth - 1, e);
      }
      StopAtArrow(Print(rest), s, base, depth, e);
    case Str(q, body, rest) =>
      CloserStops(rest, s, base + (|PrintBody(body)| + 2), nesting, drift, depth, e);
      StopAfterString(q, body, Print(rest), s, base, depth, e);
    case Group(o, inner, c, rest) =>
      GroupStops(o, inner, c, rest, s, base, nesting, drift, depth, e);
  }

  lemma {:induction false} GroupStops(o: char, inner: Text, c: char, rest: Text, s: string, base: nat, nesting: nat,
                                      drift: int, depth: nat, e: bool)
    requires Opens(o) && Closes(c) && Balanced(inner, e) && Balanced(rest, e)
    requires depth == nesting - drift && !Held(Group(o, inner, c, rest), nesting, drift)
    ensures StopsInside([o] + (Print(inner) + ([c] + Print(rest))), s, base, depth, e)
    decreases Group(o, inner, c, rest), 0
  {
    var x, y := Print(inner), [c] + Print(rest);
    if !Held(inner, nesting + 1, drift) {
      CloserStops(inner, y + s, base + 1, nesting + 1, drift, depth + 1, e);
      StopEarlier(x, y, s, base + 1, depth + 1, e);
    } else {
      HeldEnds(inner, nesting + 1, drift);
      var mid := depth + 1 - Drift(inner);
      CloserSkips(inner, y + s, base + 1, nesting + 1, drift, depth + 1, mid, e);
      AtCloseStops(c, rest, s, base + 1 + |x|, nesting, drift + Drift(inner), mid, e);
      StopLater(x, y, s, base + 1, depth + 1, mid, e);
    }
    StopAfterOpen(o, x + y, s, base, depth, e);
  }

  /** At the bracket of a group: it closes too much, or what follows does. */
  lemma {:induction false} AtCloseStops(c: char, rest: Text, s: string, base: nat, nesting: nat, drift: int, depth: nat,
                                        e: bool)
    requires Closes(c) && Balanced(rest, e) && depth == nesting + 1 - drift
    requires depth > 0 ==> !Held(rest, nesting, drift)
    ensures StopsInside([c] + Print(rest), s, base, depth, e)
    decreases rest, 2
  {
    if depth > 0 {
      CloserStops(rest, s, base + 1, nesting, drift, depth - 1, e);
    }
    StopAtClose(c, Print(rest), s, base, depth, e);
  }

  lemma {:induction false} CloserAhead(s: string, base: nat, depth: int, e: bool)
    ensures var k := Closer(s, base, depth, e); k.Some? ==> k.value >= base
    decreases |s|
  {
    if s != "" {
      if Quote(s[0]) {
        var k := 1 + StringLen(s[1..], s[0], e);
        CloserAhead(s[k..], base + k, depth, e);
      } else if !(Closes(s[0]) && depth == 0) {
        CloserAhead(s[1..], base + 1, Deeper(s[0], depth), e);
      }
    }
  }

  lemma {:induction false} CloseBracket(close: char, after: string, base: nat, depth: nat, e: bool)
    requires Closes(close)
    ensures Closer([close] + after, base, depth, e) == Some(base) <==> depth == 0
  {
    assert ([close] + after)[1..] == after;
    CloserAhead(after, base + 1, depth - 1, e);
  }

  /** No angle that compares is a `<`. */
  predicate NoLess(t: Text) {
    match t
    case End => true
    case Ch(c, rest) => c != '<' && NoLess(rest)
    case Arrow(rest) => NoLess(rest)
    case Str(_, _, rest) => NoLess(rest)
    case Group(_, inner, _, rest) => NoLess(inner) && NoLess(rest)
  }

  lemma {:induction false} DriftRises(t: Text)
    requires NoLess(t)
    ensures Drift(t) >= 0 && (Drift(t) == 0 <==> Tight(t))
    decreases t
  {
    match t
    case End =>
    case Ch(_, rest) => DriftRises(rest);
    case Arrow(rest) => DriftRises(rest);
    case Str(_, _, rest) => DriftRises(rest);
    case Group(_, inner, _, rest) =>
      DriftRises(inner);
      DriftRises(rest);
  }

  lemma {:induction false} TightIsHeld(t: Text, nesting: nat)
    requires Tight(t)
    ensures Held(t, nesting, 0) && Drift(t) == 0
    decreases t
  {
    match t
    case End =>
    case Ch(_, rest) => TightIsHeld(rest, nesting);
    case Str(_, _, rest) => TightIsHeld(rest, nesting);
    case Group(_, inner, _, rest) =>
      TightIsHeld(inner, nesting + 1);
      TightIsHeld(rest, nesting);
  }

  /** The arguments of a call, whatever strings and brackets they hold, end at the bracket of
      the call if and only if nothing in them closes where the nesting equals the drift, and the
      drift comes back to zero.  Without a `<` that compares, that is without an arrow and
      without a `>` that compares. */
  lemma {:induction false} CloserOfCall(args: Text, close: char, after: string, e: bool)
    requires Balanced(args, e) && Closes(close)
    ensures var right := Closer(Print(args) + ([close] + after), 0, 0, e) == Some(|Print(args)|);
      && (right <==> Held(args, 0, 0) && Drift(args) == 0)
      && (NoLess(args) ==> (right <==> Tight(args)))
  {
    if Held(args, 0, 0) {
      HeldEnds(args, 0, 0);
      CloserSkips(args, [close] + after, 0, 0, 0, 0, 0 - Drift(args), e);
      CloseBracket(close, after, |Print(args)|, 0 - Drift(args), e);
    } else {
      CloserStops(args, [close] + after, 0, 0, 0, 0, e);
    }
    if NoLess(args) {
      DriftRises(args);
      if Tight(args) {
        TightIsHeld(args, 0);
      }
    }
  }

  lemma {:induction false} ColonAfter(a: string, b: string)
    requires ':' !in a
    ensures AfterColon(a + ([':'] + b)) == b
  {
    var p := a + ([':'] + b);
    assert p[|a|] == ':';
    if a == "" {
      assert p[1..] == b;
    } else {
      assert p[0] == a[0] && a[0] in a && p[1..] == a[1..] + ([':'] + b);
      ColonAfter(a[1..], b);
    }
  }

  lemma {:induction false} ColonCuts(p: string) returns (a: string, b: string)
    requires ':' in p
    ensures p == a + ([':'] + b) && ':' !in a
  {
    if p[0] == ':' {
      a, b := "", p[1..];
    } else {
      a, b := ColonCuts(p[1..]);
      a := [p[0]] + a;
    }
  }

  /** A parameter has a default when an equals sign follows its first colon, or stands anywhere
      in one without a colon. */
  lemma {:induction false} DefaultIff(p: string)
    ensures HasDefault(p) <==>
            if ':' in p then exists a, b :: p == a + ([':'] + b) && ':' !in a && '=' in b else '=' in p
  {
    if ':' in p {
      var a, b := ColonCuts(p);
      ColonAfter(a, b);
      forall x, y | p == x + ([':'] + y) && ':' !in x ensures AfterColon(p) == y {
        ColonAfter(x, y);
      }
    }
  }

  /** How many have one is counted part by part. */
  lemma {:induction false} DefaultedIs(before: seq<string>, p: string, more: seq<string>)
    ensures Defaulted(before + ([p] + more)) == Defaulted(before) + (if HasDefault(p) then 1 else 0) + Defaulted(more)
    decreases |before|
  {
    var all := before + ([p] + more);
    if before == [] {
      assert all[0] == p && all[1..] == more;
    } else {
      assert all[0] == before[0] && all[1..] == before[1..] + ([p] + more);
      DefaultedIs(before[1..], p, more);
    }
  }
}
