/** Parameter lists written from a grammar of types: names, generics, tuples and function types
    with arrows, with string defaults. The bare-name gate counts every one of them. */
module Signatures {
  import opened Bytes
  import opened Brackets
  import opened BareNames
  import opened Strings

  datatype Type =
    | Name(id: string)
    | Generic(id: string, args: Types)
    | Tuple(items: Types)
    | Fn(args: Types, result: Type)

  datatype Types = Nil | Cons(head: Type, tail: Types)

  datatype Parameter = Parameter(name: string, ty: Type, default: Option<Literal>)

  datatype Literal = Literal(quote: char, body: string)

  predicate NameChar(c: char) { 'a' <= c <= 'z' || 'A' <= c <= 'Z' || '0' <= c <= '9' || c == '_' }

  predicate Identifier(s: string) { s != "" && forall i :: 0 <= i < |s| ==> NameChar(s[i]) }

  predicate GoodType(t: Type) {
    match t
    case Name(id) => Identifier(id)
    case Generic(id, args) => Identifier(id) && GoodTypes(args)
    case Tuple(items) => GoodTypes(items)
    case Fn(args, result) => GoodTypes(args) && GoodType(result)
  }

  predicate GoodTypes(ts: Types) {
    match ts case Nil => true case Cons(t, rest) => GoodType(t) && GoodTypes(rest)
  }

  /** The default is a literal without its own quote. */
  predicate GoodParameter(p: Parameter) {
    && Identifier(p.name) && GoodType(p.ty)
    && (p.default.Some? ==> Quote(p.default.value.quote) && p.default.value.quote !in p.default.value.body)
  }

  /** The default holds no parenthesis. */
  predicate PlainDefault(p: Parameter) { p.default.Some? ==> Without(p.default.value.body, '(', ')') }

  predicate Nested(t: Text) { Matched(t, '(', ')') }

  function Word(s: string, rest: Text): Text {
    if s == "" then rest else Ch(s[0], Word(s[1..], rest))
  }

  function TypeText(t: Type): Text {
    match t
    case Name(id) => Word(id, End)
    case Generic(id, args) => Word(id, Group('<', TypesText(args), '>', End))
    case Tuple(items) => Group('(', TypesText(items), ')', End)
    case Fn(args, result) => Word("fn", Group('(', TypesText(args), ')', Word(" ", Arrow(Word(" ", TypeText(result))))))
  }

  function TypesText(ts: Types): Text {
    match ts
    case Nil => End
    case Cons(t, Nil) => TypeText(t)
    case Cons(t, rest) => Append(TypeText(t), Word(", ", TypesText(rest)))
  }

  function ParameterText(p: Parameter): Text {
    Word(p.name, Word(": ", Append(TypeText(p.ty), DefaultText(p.default))))
  }

  function DefaultText(d: Option<Literal>): Text {
    match d case None => End case Some(l) => Word(" = ", Str(l.quote, Plains(l.body), End))
  }

  predicate Sound(t: Text) { Listable(t) && SignFree(t) && !EndsInDash(t) }

  predicate WordChar(c: char) { !Opens(c) && !Closes(c) && !Quote(c) && c != '-' }

  lemma {:induction false} WordSound(s: string, rest: Text)
    requires Sound(rest) && forall i :: 0 <= i < |s| ==> WordChar(s[i])
    ensures Sound(Word(s, rest)) && (Nested(rest) ==> Nested(Word(s, rest)))
    ensures NoTopComma(rest) && ',' !in s ==> NoTopComma(Word(s, rest))
    decreases |s|
  {
    if s != "" {
      WordSound(s[1..], rest);
      assert WordChar(s[0]) && s[0] in s;
    }
  }

  lemma {:induction false} NameSound(s: string, rest: Text)
    requires Sound(rest) && NoTopComma(rest) && Identifier(s)
    ensures Sound(Word(s, rest)) && NoTopComma(Word(s, rest)) && (Nested(rest) ==> Nested(Word(s, rest)))
  {
    assert forall i :: 0 <= i < |s| ==> NameChar(s[i]) && WordChar(s[i]);
    WordSound(s, rest);
  }

  lemma {:induction false} AppendSound(t: Text, more: Text)
    requires Sound(t) && Sound(more)
    ensures Sound(Append(t, more)) && (Nested(t) && Nested(more) ==> Nested(Append(t, more)))
    ensures NoTopComma(t) && NoTopComma(more) ==> NoTopComma(Append(t, more))
    decreases t
  {
    AppendListable(t, more);
    AppendEnds(t, more);
    if Nested(t) && Nested(more) {
      AppendMatched(t, more, '(', ')');
    }
  }

  lemma {:induction false} AppendEnds(t: Text, more: Text)
    requires !EndsInDash(t) && !EndsInDash(more) && SignFree(t) && SignFree(more)
    ensures !EndsInDash(Append(t, more)) && SignFree(Append(t, more))
    ensures NoTopComma(t) && NoTopComma(more) ==> NoTopComma(Append(t, more))
    decreases t
  {
    if !t.End? {
      AppendEnds(t.rest, more);
      assert t.Ch? && t.rest.End? ==> Append(t.rest, more) == more;
    }
  }

  lemma {:induction false} GroupSound(o: char, inner: Text, c: char, rest: Text)
    requires Sound(inner) && Sound(rest) && ((o == '<' && c == '>') || (o == '(' && c == ')'))
    ensures Sound(Group(o, inner, c, rest)) && (Nested(inner) && Nested(rest) ==> Nested(Group(o, inner, c, rest)))
    ensures NoTopComma(rest) ==> NoTopComma(Group(o, inner, c, rest))
  {
  }

  lemma {:induction false} TypeSound(t: Type)
    requires GoodType(t)
    ensures Sound(TypeText(t)) && NoTopComma(TypeText(t)) && Nested(TypeText(t))
    decreases t
  {
    assert Sound(End) && NoTopComma(End) && Nested(End);
    match t
    case Name(id) => NameSound(id, End);
    case Generic(id, args) =>
      TypesSound(args);
      GroupSound('<', TypesText(args), '>', End);
      NameSound(id, Group('<', TypesText(args), '>', End));
    case Tuple(items) =>
      TypesSound(items);
      GroupSound('(', TypesText(items), ')', End);
    case Fn(args, result) =>
      TypesSound(args);
      TypeSound(result);
      WordSound(" ", TypeText(result));
      var arrow := Arrow(Word(" ", TypeText(result)));
      WordSound(" ", arrow);
      GroupSound('(', TypesText(args), ')', Word(" ", arrow));
      WordSound("fn", Group('(', TypesText(args), ')', Word(" ", arrow)));
  }

  lemma {:induction false} TypesSound(ts: Types)
    requires GoodTypes(ts)
    ensures Sound(TypesText(ts)) && Nested(TypesText(ts))
    decreases ts
  {
    match ts
    case Nil =>
    case Cons(t, Nil) => TypeSound(t);
    case Cons(t, rest) =>
      TypeSound(t);
      TypesSound(rest);
      WordSound(", ", TypesText(rest));
      AppendSound(TypeText(t), Word(", ", TypesText(rest)));
  }

  lemma {:induction false} DefaultSound(d: Literal)
    requires Quote(d.quote) && d.quote !in d.body
    ensures Sound(DefaultText(Some(d))) && NoTopComma(DefaultText(Some(d)))
    ensures Without(d.body, '(', ')') ==> Nested(DefaultText(Some(d)))
  {
    var literal := Str(d.quote, Plains(d.body), End);
    assert Sound(End) && NoTopComma(End) && Nested(End);
    assert GoodBody(Plains(d.body), d.quote, false);
    assert Sound(literal) && NoTopComma(literal);
    WordSound(" = ", literal);
  }

  lemma {:induction false} WordPrints(s: string, rest: Text)
    ensures Print(Word(s, rest)) == s + Print(rest)
    decreases |s|
  {
    if s != "" {
      WordPrints(s[1..], rest);
      assert s == [s[0]] + s[1..];
    }
  }

  lemma {:induction false} ParameterDeclarable(p: Parameter)
    requires GoodParameter(p)
    ensures Declarable(ParameterText(p)) && SignFree(ParameterText(p)) && NoTopComma(ParameterText(p))
    ensures PlainDefault(p) ==> Nested(ParameterText(p))
  {
    TypeSound(p.ty);
    if p.default.Some? {
      DefaultSound(p.default.value);
    }
    AppendSound(TypeText(p.ty), DefaultText(p.default));
    var rest := Append(TypeText(p.ty), DefaultText(p.default));
    WordSound(": ", rest);
    NameSound(p.name, Word(": ", rest));
    WordPrints(p.name, Word(": ", rest));
    assert NameChar(p.name[0]) && !PySpace(p.name[0]);
    assert Print(ParameterText(p))[0] == p.name[0];
  }

  function ParameterTexts(ps: seq<Parameter>): (r: seq<Text>)
    ensures |r| == |ps| && forall i :: 0 <= i < |ps| ==> r[i] == ParameterText(ps[i])
  {
    if ps == [] then [] else [ParameterText(ps[0])] + ParameterTexts(ps[1..])
  }

  /** Every list of parameters of these types has the arity of the list, generics, tuples,
      function types and defaults with commas notwithstanding; and `param_list` gives that list
      if and only if the defaults keep its parenthesis open, as they do without parentheses. */
  lemma {:induction false} ArityOfSignature(before: string, ps: seq<Parameter>, after: string)
    requires '(' !in before && forall p :: p in ps ==> GoodParameter(p)
    ensures var list := Print(Commas(ParameterTexts(ps)));
      && (ParamListOf(Line(before, ParameterTexts(ps), after)) == Some(list) <==> Keeps(list, 1, PARENS))
      && |Kept(Parts(BlankArrows(list), 0, false))| == |ps|
      && ((forall p :: p in ps ==> PlainDefault(p)) ==> Keeps(list, 1, PARENS))
  {
    forall i | 0 <= i < |ps| ensures Declarable(ParameterTexts(ps)[i]) {
      assert ps[i] in ps;
      ParameterDeclarable(ps[i]);
    }
    ArityOfLine(before, ParameterTexts(ps), after);
    if ps != [] {
      SignatureIsCutRight(ps, false);
    }
    if forall p :: p in ps ==> PlainDefault(p) {
      PlainKeeps(ps);
    }
  }

  lemma {:induction false} SignatureIsCutRight(ps: seq<Parameter>, e: bool)
    requires !e && ps != [] && forall p :: p in ps ==> GoodParameter(p)
    ensures CutRight(BlankAll(ParameterTexts(ps)))
  {
    forall i | 0 <= i < |ps| ensures Item(ParameterTexts(ps)[i], e) && SignFree(ParameterTexts(ps)[i]) {
      assert ps[i] in ps;
      ParameterDeclarable(ps[i]);
    }
    SignFreeIsCutRight(ParameterTexts(ps), e);
  }

  lemma {:induction false} PlainKeeps(ps: seq<Parameter>)
    requires forall p :: p in ps ==> GoodParameter(p) && PlainDefault(p)
    ensures Keeps(Print(Commas(ParameterTexts(ps))), 1, PARENS)
  {
    forall i | 0 <= i < |ps| ensures Declarable(ParameterTexts(ps)[i]) && Nested(ParameterTexts(ps)[i]) {
      assert ps[i] in ps;
      ParameterDeclarable(ps[i]);
    }
    CommasListable(ParameterTexts(ps));
    CommasMatched(ParameterTexts(ps), '(', ')');
    TextKeeps(Commas(ParameterTexts(ps)), PARENS, false);
  }
}
