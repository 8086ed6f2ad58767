/**
 * One-dimensional array literals (src/values.rs, `parse_array_elements`), a second layer of
 * escaping inside a `COPY` field.
 */
module ArrayText {
  import opened Bytes
  import CopyText
  import CopyRoundTrip

  const OPEN: byte := 123
  const CLOSE: byte := 125
  const COMMA: byte := 44
  const QUOTE: byte := 34
  const NULL_WORD: seq<byte> := [78, 85, 76, 76]

  type Element = Option<seq<byte>>

  predicate IsBare(b: byte) {
    b != COMMA && b != CLOSE && !IsWs(b)
  }

  // ---------------------------------------------------------------- reading

  function SkipBlanks(s: seq<byte>, i: nat): (j: nat)
    requires i <= |s|
    ensures i <= j <= |s|
    decreases |s| - i
  {
    if i < |s| && IsWs(s[i]) then SkipBlanks(s, i + 1) else i
  }

  function BareEnd(s: seq<byte>, i: nat): (j: nat)
    requires i <= |s|
    ensures i <= j <= |s|
    decreases |s| - i
  {
    if i < |s| && IsBare(s[i]) then BareEnd(s, i + 1) else i
  }

  /** The rest of a quoted element after `text`, up to its closing quote, and what follows. */
  function Quoted(s: seq<byte>, i: nat, text: seq<byte>): (r: Option<(seq<byte>, nat)>)
    requires i <= |s|
    ensures r.Some? ==> i < r.value.1 <= |s|
    decreases |s| - i
  {
    if i == |s| then None
    else if s[i] == QUOTE then Some((text, i + 1))
    else if s[i] == BACKSLASH then
      if i + 1 == |s| then None else Quoted(s, i + 2, text + [s[i + 1]])
    else Quoted(s, i + 1, text + [s[i]])
  }

  function OneElement(s: seq<byte>, i: nat): (r: Option<(Element, nat)>)
    requires i <= |s|
    ensures r.Some? ==> i <= r.value.1 <= |s|
  {
    if i < |s| && s[i] == QUOTE then
      match Quoted(s, i + 1, [])
      case None => None
      case Some((text, j)) => Some((Some(text), j))
    else
      var j := BareEnd(s, i);
      Some((if s[i..j] == NULL_WORD then None else Some(s[i..j]), j))
  }

  function Elements(s: seq<byte>, i: nat): (r: Option<seq<Element>>)
    requires i <= |s|
    decreases |s| - i
  {
    match OneElement(s, SkipBlanks(s, i))
    case None => None
    case Some((e, j)) =>
      var k := SkipBlanks(s, j);
      if k == |s| then Some([e])
      else if s[k] != COMMA then None
      else
        match Elements(s, k + 1)
        case None => None
        case Some(rest) => Some([e] + rest)
  }

  function ParseArray(v: seq<byte>): (r: Result<seq<Element>, Unparsable>) {
    if |v| < 2 || v[0] != OPEN || v[|v| - 1] != CLOSE then Err(Unparsable)
    else
      var inner := v[1..|v| - 1];
      if inner == [] then Ok([])
      else
        match Elements(inner, 0)
        case None => Err(Unparsable)
        case Some(es) => Ok(es)
  }

  // ---------------------------------------------------------------- the loops

  method ReadQuoted(s: seq<byte>, start: nat) returns (r: Option<(seq<byte>, nat)>)
    requires start <= |s|
    ensures r == Quoted(s, start, [])
  {
    var i, text := start, [];
    while true
      invariant i <= |s| && Quoted(s, start, []) == Quoted(s, i, text)
      decreases |s| - i
    {
      if i == |s| {
        return None;
      } else if s[i] == QUOTE {
        return Some((text, i + 1));
      } else if s[i] == BACKSLASH {
        if i + 1 == |s| {
          return None;
        }
        text, i := text + [s[i + 1]], i + 2;
      } else {
        text, i := text + [s[i]], i + 1;
      }
    }
  }

  method PassBlanks(s: seq<byte>, start: nat) returns (i: nat)
    requires start <= |s|
    ensures i == SkipBlanks(s, start)
  {
    i := start;
    while i < |s| && IsWs(s[i])
      invariant i <= |s| && SkipBlanks(s, start) == SkipBlanks(s, i)
    {
      i := i + 1;
    }
  }

  method PassBare(s: seq<byte>, start: nat) returns (i: nat)
    requires start <= |s|
    ensures i == BareEnd(s, start)
  {
    i := start;
    while i < |s| && IsBare(s[i])
      invariant i <= |s| && BareEnd(s, start) == BareEnd(s, i)
    {
      i := i + 1;
    }
  }

  function Prepended(es: seq<Element>, rest: Option<seq<Element>>): (r: Option<seq<Element>>) {
    if rest.None? then None else Some(es + rest.value)
  }

  lemma PrependedOne(es: seq<Element>, e: Element, rest: Option<seq<Element>>)
    ensures Prepended(es + [e], rest) == Prepended(es, Prepended([e], rest))
    ensures Prepended([], rest) == rest
  {
    if rest.Some? {
      assert es + [e] + rest.value == es + ([e] + rest.value);
      assert [] + rest.value == rest.value;
    }
  }

  /** What one element found means for the rest. */
  lemma ElementsStep(s: seq<byte>, i: nat, e: Element, j: nat)
    requires i <= |s| && OneElement(s, SkipBlanks(s, i)) == Some((e, j))
    ensures var k := SkipBlanks(s, j);
      Elements(s, i) ==
        if k == |s| then Some([e]) else if s[k] != COMMA then None else Prepended([e], Elements(s, k + 1))
  {
    hide OneElement, SkipBlanks;
  }

  method ParseArrayElements(v: seq<byte>) returns (r: Result<seq<Element>, Unparsable>)
    ensures r == ParseArray(v)
  {
    if |v| < 2 || v[0] != OPEN || v[|v| - 1] != CLOSE {
      return Err(Unparsable);
    }
    var inner := v[1..|v| - 1];
    if inner == [] {
      return Ok([]);
    }
    var es := ReadElements(inner);
    return if es.None? then Err(Unparsable) else Ok(es.value);
  }

  method ReadOne(s: seq<byte>, i: nat) returns (r: Option<(Element, nat)>)
    requires i <= |s|
    ensures r == OneElement(s, i)
  {
    if i < |s| && s[i] == QUOTE {
      var q := ReadQuoted(s, i + 1);
      return if q.None? then None else Some((Some(q.value.0), q.value.1));
    }
    var j := PassBare(s, i);
    return Some((if s[i..j] == NULL_WORD then None else Some(s[i..j]), j));
  }

  method ReadElements(inner: seq<byte>) returns (r: Option<seq<Element>>)
    ensures r == Elements(inner, 0)
  {
    hide OneElement, SkipBlanks, Prepended;
    var elements: seq<Element> := [];
    var i := 0;
    PrependedOne([], None, Elements(inner, 0));
    while true
      invariant i <= |inner| && Elements(inner, 0) == Prepended(elements, Elements(inner, i))
      decreases |inner| - i
    {
      ghost var from := i;
      i := PassBlanks(inner, i);
      var one := ReadOne(inner, i);
      if one.None? {
        PrependedNone(elements);
        return None;
      }
      ElementsStep(inner, from, one.value.0, one.value.1);
      hide Elements;
      elements := elements + [one.value.0];
      i := PassBlanks(inner, one.value.1);
      if i == |inner| {
        PrependedNone(elements[..|elements| - 1]);
        return Some(elements);
      }
      if inner[i] != COMMA {
        PrependedNone(elements[..|elements| - 1]);
        return None;
      }
      PrependedOne(elements[..|elements| - 1], one.value.0, Elements(inner, i + 1));
      i := i + 1;
    }
  }

  lemma PrependedNone(es: seq<Element>)
    ensures Prepended(es, None) == None
    ensures forall e: Element :: Prepended(es, Some([e])) == Some(es + [e])
  {
  }

  // ---------------------------------------------------------------- writing

  /** An element of some text, written with or without quotes, or a null. */
  datatype Written = Null | Bare(text: seq<byte>) | InQuotes(text: seq<byte>)

  /** Text that may be written as it stands. */
  predicate MayBeBare(text: seq<byte>) {
    && text != [] && text != Ascii("NULL")
    && forall i :: 0 <= i < |text| ==> text[i] as char !in ",{}\"\\" && !IsBlank(text[i])
  }

  /** Space, tab, newline, form feed, carriage return. */
  predicate IsBlank(b: byte) {
    b as char == ' ' || b as char == '\t' || b as char == '\n' || b == 12 || b as char == '\r'
  }

  predicate Blank(ws: seq<byte>) {
    forall i :: 0 <= i < |ws| ==> IsBlank(ws[i])
  }

  /** An element with the blanks around it. */
  datatype Placed = Placed(pre: seq<byte>, element: Written, post: seq<byte>)

  predicate WellWritten(p: Placed) {
    Blank(p.pre) && Blank(p.post) && (p.element.Bare? ==> MayBeBare(p.element.text))
  }

  predicate AllWell(ps: seq<Placed>) {
    forall k :: 0 <= k < |ps| ==> WellWritten(ps[k])
  }

  function Meaning(w: Written): (e: Element) {
    match w
    case Null => None
    case Bare(text) => Some(text)
    case InQuotes(text) => Some(text)
  }

  function Meanings(ps: seq<Placed>): (es: seq<Element>)
    ensures |es| == |ps|
    decreases |ps|
  {
    if ps == [] then [] else [Meaning(ps[0].element)] + Meanings(ps[1..])
  }

  function Escaped(text: seq<byte>): (s: seq<byte>)
    decreases |text|
  {
    if text == [] then []
    else
      var b := text[0] as char;
      (if b == '\"' || b == '\\' then ['\\' as int, text[0]] else [text[0]]) + Escaped(text[1..])
  }

  function PrintElement(w: Written): (s: seq<byte>) {
    match w
    case Null => Ascii("NULL")
    case Bare(text) => text
    case InQuotes(text) => ['\"' as int] + (Escaped(text) + ['\"' as int])
  }

  function PrintPlaced(p: Placed): (s: seq<byte>) {
    p.pre + (PrintElement(p.element) + p.post)
  }

  /** Elements, each followed by a comma. */
  function PrintInit(ps: seq<Placed>): (s: seq<byte>)
    decreases |ps|
  {
    if ps == [] then [] else PrintPlaced(ps[0]) + ([',' as int] + PrintInit(ps[1..]))
  }

  function PrintElements(ps: seq<Placed>): (s: seq<byte>)
    requires ps != []
  {
    PrintInit(ps[..|ps| - 1]) + PrintPlaced(ps[|ps| - 1])
  }

  function PrintArray(ps: seq<Placed>): (s: seq<byte>) {
    ['{' as int] + (if ps == [] then [] else PrintElements(ps)) + ['}' as int]
  }

  // ---------------------------------------------------------------- round trip

  /** `s` reads `t` from `i` on. */
  ghost predicate ReadsAt(s: seq<byte>, i: nat, t: seq<byte>) {
    i <= |s| && s[i..] == t
  }

  lemma Onward(s: seq<byte>, i: nat, a: seq<byte>, b: seq<byte>)
    requires ReadsAt(s, i, a + b)
    ensures ReadsAt(s, i + |a|, b)
    ensures s[i..i + |a|] == a
    ensures forall k :: 0 <= k < |a| ==> s[i + k] == a[k]
  {
    assert s[i + |a|..] == s[i..][|a|..];
    assert s[i..i + |a|] == s[i..][..|a|];
    forall k | 0 <= k < |a|
      ensures s[i + k] == a[k]
    {
      assert s[i + k] == s[i..][k];
    }
  }

  lemma {:induction false} QuotedReads(s: seq<byte>, i: nat, text: seq<byte>, todo: seq<byte>, rest: seq<byte>)
    requires ReadsAt(s, i, Escaped(todo) + ([QUOTE] + rest))
    ensures i <= |s| && Quoted(s, i, text) == Some((text + todo, i + |Escaped(todo)| + 1))
    decreases |todo|
  {
    if todo == [] {
      assert Escaped(todo) + ([QUOTE] + rest) == [QUOTE] + rest;
      Onward(s, i, [QUOTE], rest);
      assert s[i + 0] == QUOTE;
      assert text + todo == text;
    } else {
      var b := todo[0];
      var head := if b == QUOTE || b == BACKSLASH then [BACKSLASH, b] else [b];
      var tail := Escaped(todo[1..]) + ([QUOTE] + rest);
      assert Escaped(todo) + ([QUOTE] + rest) == head + tail;
      Onward(s, i, head, tail);
      assert s[i + 0] == head[0];
      QuotedReads(s, i + |head|, text + [b], todo[1..], rest);
      assert text + [b] + todo[1..] == text + todo;
    }
  }

  lemma {:induction false} BareReads(s: seq<byte>, i: nat, n: nat)
    requires i + n <= |s| && (forall k :: i <= k < i + n ==> IsBare(s[k])) && (i + n < |s| ==> !IsBare(s[i + n]))
    ensures BareEnd(s, i) == i + n
    decreases n
  {
    if n > 0 {
      BareReads(s, i + 1, n - 1);
    }
  }

  lemma QuotedElement(s: seq<byte>, i: nat, text: seq<byte>, rest: seq<byte>)
    requires ReadsAt(s, i, PrintElement(InQuotes(text)) + rest)
    ensures i < |s| && s[i] == QUOTE
    ensures Quoted(s, i + 1, []) == Some((text, i + |PrintElement(InQuotes(text))|))
  {
    hide Quoted, Escaped;
    var tail := Escaped(text) + ([QUOTE] + rest);
    assert PrintElement(InQuotes(text)) + rest == [QUOTE] + tail;
    Onward(s, i, [QUOTE], tail);
    assert s[i + 0] == QUOTE;
    QuotedReads(s, i + 1, [], text, rest);
    assert [] + text == text;
  }

  /** What ends a bare element: nothing, a comma, a blank, or a closing brace. */
  predicate Parts(rest: seq<byte>) {
    rest == [] || rest[0] as char == ',' || rest[0] as char == '}' || IsBlank(rest[0])
  }

  /** A word up to the end, a comma or a blank. */
  lemma BareElement(s: seq<byte>, i: nat, text: seq<byte>, rest: seq<byte>)
    requires ReadsAt(s, i, text + rest) && Parts(rest)
    requires forall k :: 0 <= k < |text| ==> IsBare(text[k])
    ensures i + |text| <= |s| && BareEnd(s, i) == i + |text| && s[i..i + |text|] == text
  {
    hide BareEnd;
    Onward(s, i, text, rest);
    forall k | i <= k < i + |text|
      ensures IsBare(s[k])
    {
      assert s[i + (k - i)] == text[k - i];
    }
    assert i + |text| < |s| ==> s[i + |text|] == s[i + |text|..][0];
    BareReads(s, i, |text|);
  }

  lemma FirstByte(s: seq<byte>, i: nat, text: seq<byte>, rest: seq<byte>)
    requires ReadsAt(s, i, text + rest) && text != []
    ensures i < |s| && s[i] == text[0]
  {
    Onward(s, i, text, rest);
    assert s[i + 0] == text[0];
  }

  lemma {:induction false} BlanksPassed(s: seq<byte>, i: nat, ws: seq<byte>, rest: seq<byte>)
    requires Blank(ws) && ReadsAt(s, i, ws + rest) && (rest == [] || !IsBlank(rest[0]))
    ensures i <= |s| && SkipBlanks(s, i) == i + |ws| && ReadsAt(s, i + |ws|, rest)
    decreases |ws|
  {
    if ws == [] {
      assert ws + rest == rest;
    } else {
      FirstByte(s, i, ws, rest);
      assert ws + rest == [ws[0]] + (ws[1..] + rest);
      Onward(s, i, [ws[0]], ws[1..] + rest);
      BlanksPassed(s, i + 1, ws[1..], rest);
    }
  }

  lemma ElementBytes(w: Written)
    requires w.Bare? ==> MayBeBare(w.text)
    ensures PrintElement(w) != [] && !IsBlank(PrintElement(w)[0])
    ensures !w.InQuotes? ==> PrintElement(w)[0] != QUOTE && forall k :: 0 <= k < |PrintElement(w)| ==> IsBare(PrintElement(w)[k])
    ensures PrintElement(w) == NULL_WORD <==> w.Null?
  {
    assert Ascii("NULL") == NULL_WORD;
  }

  /** An element and the blank, comma or end after it. */
  lemma ElementReads(s: seq<byte>, i: nat, w: Written, rest: seq<byte>)
    requires (w.Bare? ==> MayBeBare(w.text)) && ReadsAt(s, i, PrintElement(w) + rest) && (w.InQuotes? || Parts(rest))
    ensures i <= |s| && OneElement(s, i) == Some((Meaning(w), i + |PrintElement(w)|))
  {
    hide Quoted, BareEnd, ReadsAt, Escaped, MayBeBare, Parts;
    ElementBytes(w);
    FirstByte(s, i, PrintElement(w), rest);
    if w.InQuotes? {
      QuotedElement(s, i, w.text, rest);
    } else {
      BareElement(s, i, PrintElement(w), rest);
    }
  }

  /** Where reading one element with its blanks comes to. */
  lemma PlacedFound(s: seq<byte>, i: nat, p: Placed, rest: seq<byte>)
    requires WellWritten(p) && ReadsAt(s, i, PrintPlaced(p) + rest)
    requires rest == [] || !IsBlank(rest[0])
    requires p.element.InQuotes? || p.post != [] || Parts(rest)
    ensures var j := i + |p.pre|;
      var k := j + |PrintElement(p.element)|;
      && i <= |s| && SkipBlanks(s, i) == j <= |s| && OneElement(s, j) == Some((Meaning(p.element), k))
      && k <= |s| && SkipBlanks(s, k) == i + |PrintPlaced(p)| && ReadsAt(s, i + |PrintPlaced(p)|, rest)
  {
    hide ReadsAt, OneElement, PrintElement, SkipBlanks, MayBeBare, IsBlank, Meaning;
    var text := PrintElement(p.element);
    ElementBytes(p.element);
    assert PrintPlaced(p) + rest == p.pre + (text + (p.post + rest));
    BlanksPassed(s, i, p.pre, text + (p.post + rest));
    var j := i + |p.pre|;
    if !p.element.InQuotes? {
      PostParts(p.post, rest);
    }
    ElementReads(s, j, p.element, p.post + rest);
    Onward(s, j, text, p.post + rest);
    BlanksPassed(s, j + |text|, p.post, rest);
  }

  /** One element with its blanks, up to the end or to something that is no blank. */
  lemma PlacedReads(s: seq<byte>, i: nat, p: Placed, rest: seq<byte>)
    requires WellWritten(p) && ReadsAt(s, i, PrintPlaced(p) + rest)
    requires rest == [] || !IsBlank(rest[0])
    requires p.element.InQuotes? || p.post != [] || Parts(rest)
    ensures i <= |s| && ReadsAt(s, i + |PrintPlaced(p)|, rest)
    ensures Elements(s, i) ==
      if rest == [] then Some([Meaning(p.element)]) else if rest[0] != COMMA then None
      else Prepended([Meaning(p.element)], Elements(s, i + |PrintPlaced(p)| + 1))
  {
    hide ReadsAt, OneElement, PrintElement, PrintPlaced, SkipBlanks, Elements, WellWritten, IsBlank, Parts, Meaning;
    PlacedFound(s, i, p, rest);
    ElementsStep(s, i, Meaning(p.element), i + |p.pre| + |PrintElement(p.element)|);
    AtRest(s, i + |PrintPlaced(p)|, rest);
  }

  lemma PostParts(post: seq<byte>, rest: seq<byte>)
    requires Blank(post) && (post != [] || Parts(rest))
    ensures Parts(post + rest)
  {
    if post != [] {
      assert (post + rest)[0] == post[0];
    } else {
      assert post + rest == rest;
    }
  }

  lemma AtRest(s: seq<byte>, k: nat, rest: seq<byte>)
    requires ReadsAt(s, k, rest)
    ensures k <= |s| && (k == |s| <==> rest == []) && (rest != [] ==> s[k] == rest[0])
  {
  }

  /** Elements read in front of whatever comes after their commas. */
  lemma {:induction false} InitReads(s: seq<byte>, i: nat, ps: seq<Placed>, rest: seq<byte>)
    requires AllWell(ps) && ReadsAt(s, i, PrintInit(ps) + rest)
    ensures i + |PrintInit(ps)| <= |s| && ReadsAt(s, i + |PrintInit(ps)|, rest)
    ensures Elements(s, i) == Prepended(Meanings(ps), Elements(s, i + |PrintInit(ps)|))
    decreases |ps|
  {
    hide Elements, WellWritten, PrintPlaced, ReadsAt, Prepended;
    if ps == [] {
      assert PrintInit(ps) + rest == rest;
      AtRest(s, i, rest);
      PrependedOne([], None, Elements(s, i));
    } else {
      var more := PrintInit(ps[1..]) + rest;
      assert PrintInit(ps) + rest == PrintPlaced(ps[0]) + ([COMMA] + more);
      PlacedReads(s, i, ps[0], [COMMA] + more);
      var k := i + |PrintPlaced(ps[0])|;
      Onward(s, k, [COMMA], more);
      InitReads(s, k + 1, ps[1..], rest);
      PrependsOn(Meaning(ps[0].element), Meanings(ps[1..]), Elements(s, i + |PrintInit(ps)|));
    }
  }

  lemma PrependsOn(e: Element, es: seq<Element>, rest: Option<seq<Element>>)
    ensures Prepended([e], Prepended(es, rest)) == Prepended([e] + es, rest)
  {
    if rest.Some? {
      assert [e] + (es + rest.value) == [e] + es + rest.value;
    }
  }

  lemma LastReads(s: seq<byte>, i: nat, p: Placed)
    requires WellWritten(p) && ReadsAt(s, i, PrintPlaced(p))
    ensures i <= |s| && Elements(s, i) == Some([Meaning(p.element)])
  {
    hide Elements, PrintElement;
    assert PrintPlaced(p) + [] == PrintPlaced(p);
    PlacedReads(s, i, p, []);
  }

  lemma {:induction false} MeaningsSnoc(init: seq<Placed>, last: Placed)
    ensures Meanings(init + [last]) == Meanings(init) + [Meaning(last.element)]
    decreases |init|
  {
    hide Meaning;
    if init == [] {
      assert (init + [last])[1..] == [];
    } else {
      MeaningsSnoc(init[1..], last);
      assert (init + [last])[1..] == init[1..] + [last];
    }
  }

  lemma InitPrinted(ps: seq<Placed>)
    requires ps != [] && AllWell(ps)
    ensures PrintElements(ps) != []
  {
    ElementBytes(ps[|ps| - 1].element);
  }

  /**
   * Array literals round-trip, with blanks around elements or without and whatever is quoted
   * beyond what must be: null, the quoted word NULL and the empty string all stay apart.
   */
  lemma ArrayRoundTrip(ps: seq<Placed>)
    requires AllWell(ps)
    ensures ParseArray(PrintArray(ps)) == Ok(Meanings(ps))
  {
    hide Elements, PrintElements, PrintInit, Meanings, WellWritten;
    var v := PrintArray(ps);
    var inner := if ps == [] then [] else PrintElements(ps);
    assert v[1..|v| - 1] == inner;
    if ps != [] {
      InitPrinted(ps);
      InnerReads(inner, ps);
    }
  }

  lemma InnerReads(inner: seq<byte>, ps: seq<Placed>)
    requires ps != [] && AllWell(ps) && inner == PrintElements(ps)
    ensures Elements(inner, 0) == Some(Meanings(ps))
  {
    hide Elements, PrintInit, Meanings, WellWritten, PrintPlaced, Prepended;
    var init, last := ps[..|ps| - 1], ps[|ps| - 1];
    assert inner[0..] == inner;
    InitReads(inner, 0, init, PrintPlaced(last));
    LastReads(inner, |PrintInit(init)|, last);
    PrependedNone(Meanings(init));
    assert ps == init + [last];
    MeaningsSnoc(init, last);
  }

  /** And through both layers: written as an array, escaped for `COPY` in any style, and back. */
  lemma BothLayers(ps: seq<Placed>, field: seq<(byte, CopyRoundTrip.Style)>)
    requires AllWell(ps) && CopyRoundTrip.EraseText(field) == PrintArray(ps)
    ensures CopyText.ValueOf(CopyRoundTrip.RenderField(Some(field))) == Ok(Some(PrintArray(ps)))
    ensures ParseArray(CopyText.ValueOf(CopyRoundTrip.RenderField(Some(field))).value.value) == Ok(Meanings(ps))
  {
    hide ParseArray, PrintArray, CopyText.ValueOf, CopyRoundTrip.RenderField;
    CopyRoundTrip.FieldRoundTrip(Some(field));
    ArrayRoundTrip(ps);
  }

  /** Every sequence of nullable byte strings can be written so. */
  lemma {:induction false} EveryArray(es: seq<Element>) returns (ps: seq<Placed>)
    ensures |ps| == |es| && Meanings(ps) == es && AllWell(ps)
    decreases |es|
  {
    if es == [] {
      ps := [];
    } else {
      var rest := EveryArray(es[1..]);
      var first := Placed([], if es[0].None? then Null else InQuotes(es[0].value), []);
      ps := [first] + rest;
      assert ps[1..] == rest;
    }
  }

  // ---------------------------------------------------------------- literals that are refused

  /** No braces, no array. */
  lemma NotBraced(v: seq<byte>)
    requires |v| < 2 || v[0] as char != '{' || v[|v| - 1] as char != '}'
    ensures ParseArray(v) == Err(Unparsable)
  {
  }

  /** A quote that is never closed is an error, after any elements. */
  lemma Unclosed(ps: seq<Placed>, text: seq<byte>, escape: bool)
    requires AllWell(ps)
    ensures ParseArray(['{' as int] + (PrintInit(ps) + (['\"' as int] + (Escaped(text) + if escape then ['\\' as int] else [])))
                       + ['}' as int]) == Err(Unparsable)
  {
    hide Elements, PrintInit, Escaped, WellWritten, Meanings;
    var open := ['\"' as int] + (Escaped(text) + if escape then ['\\' as int] else []);
    var inner := PrintInit(ps) + open;
    var v := ['{' as int] + inner + ['}' as int];
    assert v[1..|v| - 1] == inner && inner[0..] == inner;
    InitReads(inner, 0, ps, open);
    NeverCloses(inner, |PrintInit(ps)|, text, escape);
  }

  lemma NeverCloses(s: seq<byte>, i: nat, text: seq<byte>, escape: bool)
    requires ReadsAt(s, i, [QUOTE] + (Escaped(text) + if escape then [BACKSLASH] else []))
    ensures i <= |s| && Elements(s, i) == None
  {
    hide Quoted, Escaped;
    var tail := Escaped(text) + if escape then [BACKSLASH] else [];
    Onward(s, i, [QUOTE], tail);
    assert s[i + 0] == QUOTE;
    QuoteOpen(s, i + 1, [], text, escape);
    assert SkipBlanks(s, i) == i;
  }

  lemma {:induction false} QuoteOpen(s: seq<byte>, i: nat, text: seq<byte>, todo: seq<byte>, escape: bool)
    requires ReadsAt(s, i, Escaped(todo) + if escape then [BACKSLASH] else [])
    ensures i <= |s| && Quoted(s, i, text) == None
    decreases |todo|
  {
    var end := if escape then [BACKSLASH] else [];
    if todo == [] {
      assert Escaped(todo) + end == end;
      if escape {
        AtRest(s, i, end);
        assert |s| == i + 1;
      }
    } else {
      var b := todo[0];
      var head := if b == QUOTE || b == BACKSLASH then [BACKSLASH, b] else [b];
      var tail := Escaped(todo[1..]) + end;
      assert Escaped(todo) + end == head + tail;
      Onward(s, i, head, tail);
      assert s[i + 0] == head[0];
      QuoteOpen(s, i + |head|, text + [b], todo[1..], escape);
    }
  }

  /** Anything but a comma after an element and its blanks is an error, after any elements. */
  lemma Stray(ps: seq<Placed>, p: Placed, rest: seq<byte>)
    requires AllWell(ps) && WellWritten(p) && rest != [] && !IsBlank(rest[0]) && rest[0] as char != ','
    requires p.element.InQuotes? || p.post != [] || rest[0] as char == '}'
    ensures ParseArray(['{' as int] + (PrintInit(ps) + (PrintPlaced(p) + rest)) + ['}' as int]) == Err(Unparsable)
  {
    hide Elements, PrintInit, WellWritten, Meanings, PrintPlaced;
    var inner := PrintInit(ps) + (PrintPlaced(p) + rest);
    var v := ['{' as int] + inner + ['}' as int];
    assert v[1..|v| - 1] == inner && inner[0..] == inner;
    InitReads(inner, 0, ps, PrintPlaced(p) + rest);
    PlacedReads(inner, |PrintInit(ps)|, p, rest);
  }
}
