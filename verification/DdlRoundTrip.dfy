/** `CREATE TABLE` statements and `COPY` headers, printed and read back. */
module DdlRoundTrip {
  import opened Bytes
  import opened SqlPrint
  import opened SqlText

  // ---------------------------------------------------------------- text that holds together

  lemma {:induction false} HoldsAppend(a: seq<byte>, b: seq<byte>, depth: nat, quoted: bool, commas: bool)
    requires HoldsFrom(a, depth, quoted, commas) && Contained(b, commas)
    ensures HoldsFrom(a + b, depth, quoted, commas)
    decreases |a|
  {
    if a == [] {
      assert a + b == b;
    } else {
      assert (a + b)[1..] == a[1..] + b;
      HoldsNext(a, depth, quoted, commas);
      var n := Walk(Nest(depth, quoted), a[0]);
      HoldsAppend(a[1..], b, n.depth, n.quoted, commas);
    }
  }

  lemma ContainedAppend(a: seq<byte>, b: seq<byte>, commas: bool)
    requires Contained(a, commas) && Contained(b, commas)
    ensures Contained(a + b, commas)
  {
    HoldsAppend(a, b, 0, false, commas);
  }

  /** What holds together is walked over without leaving it. */
  lemma HoldsNext(s: seq<byte>, depth: nat, quoted: bool, commas: bool)
    requires s != [] && HoldsFrom(s, depth, quoted, commas)
    ensures var n := Nest(depth, quoted);
      var next := Walk(n, s[0]);
      && !(n == TOP && (s[0] == CLOSE || (!commas && s[0] == COMMA)))
      && next.depth >= 0 && HoldsFrom(s[1..], next.depth, next.quoted, commas)
  {
  }

  lemma {:induction false} HoldsAllows(s: seq<byte>, depth: nat, quoted: bool)
    requires HoldsFrom(s, depth, quoted, false)
    ensures HoldsFrom(s, depth, quoted, true)
    decreases |s|
  {
    if s != [] {
      var n := Walk(Nest(depth, quoted), s[0]);
      HoldsNext(s, depth, quoted, false);
      HoldsAllows(s[1..], n.depth, n.quoted);
    }
  }

  lemma ContainedAllows(s: seq<byte>)
    requires Contained(s, false)
    ensures Contained(s, true)
  {
    HoldsAllows(s, 0, false);
  }

  /** Nothing that means anything to the splitters. */
  predicate IsPlain(b: byte) {
    b != QUOTE && b != OPEN && b != CLOSE && b != COMMA
  }

  lemma {:induction false} PlainContained(s: seq<byte>)
    requires forall i :: 0 <= i < |s| ==> IsPlain(s[i])
    ensures Contained(s, false)
    decreases |s|
  {
    if s != [] {
      PlainContained(s[1..]);
    }
  }

  /** A piece without top-level commas is taken whole. */
  lemma {:induction false} SplitTakes(a: seq<byte>, rest: seq<byte>, depth: nat, quoted: bool, cur: seq<byte>)
    requires HoldsFrom(a, depth, quoted, false)
    ensures SplitWalk(a + rest, COMMA, Nest(depth, quoted), cur) == SplitWalk(rest, COMMA, TOP, cur + a)
    decreases |a|
  {
    if a == [] {
      assert a + rest == rest && cur + a == cur;
    } else {
      assert (a + rest)[1..] == a[1..] + rest && (a + rest)[0] == a[0];
      HoldsNext(a, depth, quoted, false);
      var n := Walk(Nest(depth, quoted), a[0]);
      SplitTakes(a[1..], rest, n.depth, n.quoted, cur + [a[0]]);
      assert cur + [a[0]] + a[1..] == cur + a;
    }
  }

  /** The paren that closes contained text is the one after it. */
  lemma {:induction false} MatchTakes(s: seq<byte>, i: nat, inner: seq<byte>, depth: nat, quoted: bool)
    requires HoldsFrom(inner, depth, quoted, true) && i + |inner| < |s|
    requires s[i..i + |inner|] == inner && s[i + |inner|] == CLOSE
    ensures MatchWalk(s, i, Nest(depth + 1, quoted)) == Some(i + |inner|)
    decreases |inner|
  {
    if inner != [] {
      assert s[i] == inner[0];
      assert s[i + 1..i + 1 + |inner[1..]|] == inner[1..] by {
        assert s[i + 1..i + |inner|] == s[i..i + |inner|][1..];
      }
      HoldsNext(inner, depth, quoted, true);
      var n := Walk(Nest(depth, quoted), inner[0]);
      MatchTakes(s, i + 1, inner[1..], n.depth, n.quoted);
    }
  }

  // ---------------------------------------------------------------- words

  lemma SpellsIff(word: seq<byte>, text: string)
    requires forall i :: 0 <= i < |text| ==> text[i] as int < 128
    ensures EqCi(word, Ascii(text)) <==> Spells(word, text)
  {
  }

  /** A keyword in front is taken off in either case, and nothing else is. */
  lemma StripsIff(line: seq<byte>, text: string)
    requires forall i :: 0 <= i < |text| ==> text[i] as int < 128
    ensures StripPrefixCi(line, Ascii(text)) == if Begins(line, text) then Some(line[|text|..]) else None
  {
    hide Ascii, EqCi, Spells;
    if |line| >= |text| {
      SpellsIff(line[..|text|], text);
    }
  }

  lemma {:induction false} WordIs(s: seq<byte>, i: nat)
    requires i <= |s|
    ensures s[i..WordEnd(s, i)] == FirstWord(s[i..])
    decreases |s| - i
  {
    if i < |s| && !IsWs(s[i]) {
      WordIs(s, i + 1);
      assert s[i..][1..] == s[i + 1..];
      assert s[i..WordEnd(s, i)] == [s[i]] + s[i + 1..WordEnd(s, i + 1)];
    }
  }

  lemma EndsTypesIff(word: seq<byte>)
    ensures IsOneOf(word, TYPE_TERMINATORS) <==> EndsTypes(word)
  {
    var ks := TYPE_TERMINATORS;
    SpellsIff(word, "DEFAULT");
    SpellsIff(word, "NOT");
    SpellsIff(word, "NULL");
    SpellsIff(word, "GENERATED");
    SpellsIff(word, "COLLATE");
    SpellsIff(word, "CONSTRAINT");
    SpellsIff(word, "CHECK");
    SpellsIff(word, "REFERENCES");
    SpellsIff(word, "PRIMARY");
    SpellsIff(word, "UNIQUE");
    hide Ascii, EqCi, Spells;
    assert |ks| == 10;
    assert IsOneOf(word, ks) <==>
      EqCi(word, ks[0]) || EqCi(word, ks[1]) || EqCi(word, ks[2]) || EqCi(word, ks[3]) || EqCi(word, ks[4])
      || EqCi(word, ks[5]) || EqCi(word, ks[6]) || EqCi(word, ks[7]) || EqCi(word, ks[8]) || EqCi(word, ks[9]);
  }

  lemma LeadsConstraintIff(word: seq<byte>)
    ensures IsOneOf(word, CONSTRAINT_LEADERS) <==> LeadsConstraint(word)
  {
    var ks := CONSTRAINT_LEADERS;
    SpellsIff(word, "CONSTRAINT");
    SpellsIff(word, "PRIMARY");
    SpellsIff(word, "UNIQUE");
    SpellsIff(word, "FOREIGN");
    SpellsIff(word, "CHECK");
    SpellsIff(word, "EXCLUDE");
    SpellsIff(word, "LIKE");
    hide Ascii, EqCi, Spells;
    assert |ks| == 7;
    assert IsOneOf(word, ks) <==>
      EqCi(word, ks[0]) || EqCi(word, ks[1]) || EqCi(word, ks[2]) || EqCi(word, ks[3]) || EqCi(word, ks[4])
      || EqCi(word, ks[5]) || EqCi(word, ks[6]);
  }

  /** Where a type is cut: at the start of such a keyword, outside parens. */
  lemma CutsIff(s: seq<byte>, i: nat, depth: int)
    requires i < |s|
    ensures CutsAt(s, i, depth) <==> depth == 0 && (i == 0 || IsBlank(s[i - 1])) && EndsTypes(FirstWord(s[i..]))
  {
    WordIs(s, i);
    EndsTypesIff(FirstWord(s[i..]));
    hide IsOneOf, EndsTypes, FirstWord, WordEnd;
  }

  // ---------------------------------------------------------------- identifiers

  lemma QuoteEnds(rest: seq<byte>)
    requires Delimits(rest)
    ensures QuotedRest([QUOTE] + rest) == Some(([], rest))
  {
    var s := [QUOTE] + rest;
    assert s[1..] == rest;
    assert rest != [] ==> rest[0] != QUOTE;
  }

  lemma {:induction false} DoubledReads(name: seq<byte>, rest: seq<byte>)
    requires Delimits(rest)
    ensures QuotedRest(Doubled(name) + ([QUOTE] + rest)) == Some((name, rest))
    decreases |name|
  {
    hide QuotedRest, Delimits;
    var s := Doubled(name) + ([QUOTE] + rest);
    if name == [] {
      assert s == [QUOTE] + rest;
      QuoteEnds(rest);
    } else {
      var tail := Doubled(name[1..]) + ([QUOTE] + rest);
      DoubledReads(name[1..], rest);
      assert s == (if name[0] == QUOTE then [QUOTE, QUOTE] else [name[0]]) + tail;
      OneMore(name[0], tail);
      assert [name[0]] + name[1..] == name;
    }
  }

  /** One byte of a quoted name, doubled if it is a quote. */
  lemma OneMore(b: byte, tail: seq<byte>)
    ensures QuotedRest((if b == QUOTE then [QUOTE, QUOTE] else [b]) + tail) == PrependName([b], QuotedRest(tail))
  {
    var s := (if b == QUOTE then [QUOTE, QUOTE] else [b]) + tail;
    if b == QUOTE {
      assert s[2..] == tail;
    } else {
      assert s[1..] == tail;
    }
  }

  lemma {:induction false} BareReads(name: seq<byte>, rest: seq<byte>)
    requires (forall i :: 0 <= i < |name| ==> !EndsBare(name[i])) && Delimits(rest)
    ensures BareName(name + rest) == name
    decreases |name|
  {
    if name == [] {
      assert name + rest == rest;
    } else {
      assert (name + rest)[0] == name[0] && (name + rest)[1..] == name[1..] + rest;
      BareReads(name[1..], rest);
      assert [name[0]] + name[1..] == name;
    }
  }

  /** Leading blanks do not matter. */
  lemma {:induction false} TrimStartBlanks(ws: seq<byte>, s: seq<byte>)
    requires (forall i :: 0 <= i < |ws| ==> IsWs(ws[i])) && (s == [] || !IsWs(s[0]))
    ensures TrimStart(ws + s) == s
    decreases |ws|
  {
    if ws == [] {
      assert ws + s == s;
    } else {
      assert (ws + s)[1..] == ws[1..] + s;
      TrimStartBlanks(ws[1..], s);
    }
  }

  lemma {:induction false} TrimEndBlanks(s: seq<byte>, ws: seq<byte>)
    requires (forall i :: 0 <= i < |ws| ==> IsWs(ws[i])) && (s == [] || !IsWs(s[|s| - 1]))
    ensures TrimEnd(s + ws) == s
    decreases |ws|
  {
    if ws == [] {
      assert s + ws == s;
    } else {
      assert (s + ws)[..|s + ws| - 1] == s + ws[..|ws| - 1];
      TrimEndBlanks(s, ws[..|ws| - 1]);
    }
  }

  /** A printed identifier is never blank at its ends, and is read back. */
  lemma IdentEnds(id: Ident)
    requires IsIdent(id)
    ensures var s := PrintIdent(id); s != [] && !IsWs(s[0]) && !IsWs(s[|s| - 1])
  {
  }

  lemma QuotedReads(ws: seq<byte>, id: Ident, rest: seq<byte>)
    requires Blank(ws) && id.quoted && Delimits(rest)
    ensures TakeIdentifier(ws + (PrintIdent(id) + rest)) == Some((id.name, rest))
  {
    hide TrimStart, QuotedRest, Doubled, Delimits, BareName;
    var s := PrintIdent(id) + rest;
    assert s[0] == QUOTE && s[1..] == Doubled(id.name) + ([QUOTE] + rest);
    TrimStartBlanks(ws, s);
    DoubledReads(id.name, rest);
  }

  lemma BareIdentReads(ws: seq<byte>, id: Ident, rest: seq<byte>)
    requires Blank(ws) && !id.quoted && IsIdent(id) && Delimits(rest)
    ensures TakeIdentifier(ws + (PrintIdent(id) + rest)) == Some((id.name, rest))
  {
    hide TrimStart, QuotedRest, BareName, Delimits;
    var s := PrintIdent(id) + rest;
    assert s[0] == id.name[0] && s[|id.name|..] == rest;
    TrimStartBlanks(ws, s);
    BareReads(id.name, rest);
  }

  lemma IdentReads(ws: seq<byte>, id: Ident, rest: seq<byte>)
    requires Blank(ws) && IsIdent(id) && Delimits(rest)
    ensures TakeIdentifier(ws + (PrintIdent(id) + rest)) == Some((id.name, rest))
  {
    hide *;
    if id.quoted {
      QuotedReads(ws, id, rest);
    } else {
      BareIdentReads(ws, id, rest);
    }
  }

  lemma {:induction false} DoubledContained(name: seq<byte>)
    ensures HoldsFrom(Doubled(name) + [QUOTE], 0, true, false)
    decreases |name|
  {
    var s := Doubled(name) + [QUOTE];
    if name == [] {
      assert s == [QUOTE] && s[1..] == [];
    } else {
      DoubledContained(name[1..]);
      var tail := Doubled(name[1..]) + [QUOTE];
      if name[0] == QUOTE {
        assert s[1..] == [QUOTE] + tail && s[1..][1..] == tail;
      } else {
        assert s[1..] == tail;
      }
    }
  }

  lemma IdentContained(id: Ident)
    requires IsIdent(id)
    ensures Contained(PrintIdent(id), false)
  {
    if id.quoted {
      DoubledContained(id.name);
      assert PrintIdent(id)[1..] == Doubled(id.name) + [QUOTE];
    } else {
      PlainContained(id.name);
    }
  }

  // ---------------------------------------------------------------- table names

  function Named(n: Name): (t: TableName) {
    TableName(if n.schema.Some? then Some(n.schema.value.name) else None, n.table.name)
  }

  lemma NameReads(ws: seq<byte>, n: Name, rest: seq<byte>)
    requires Blank(ws) && IsName(n) && Delimits(rest) && (rest == [] || rest[0] != DOT)
    ensures TakeQualified(ws + (PrintName(n) + rest)) == Some((Named(n), rest))
  {
    hide TakeIdentifier, PrintIdent, IsIdent;
    if n.schema.Some? {
      var second := PrintIdent(n.table) + rest;
      assert PrintName(n) + rest == PrintIdent(n.schema.value) + ([DOT] + second);
      IdentReads(ws, n.schema.value, [DOT] + second);
      assert ([DOT] + second)[1..] == [] + second;
      IdentReads([], n.table, rest);
    } else {
      assert PrintName(n) == PrintIdent(n.table);
      IdentReads(ws, n.table, rest);
    }
  }

  // ---------------------------------------------------------------- types

  lemma {:induction false} WordEndIs(s: seq<byte>, i: nat, e: nat)
    requires i <= e <= |s| && (forall k :: i <= k < e ==> !IsWs(s[k])) && (e < |s| ==> IsWs(s[e]))
    ensures WordEnd(s, i) == e
    decreases e - i
  {
    if i < e {
      WordEndIs(s, i + 1, e);
    }
  }

  lemma {:induction false} FirstWordIs(s: seq<byte>, e: nat)
    requires e <= |s| && (forall k :: 0 <= k < e ==> !IsBlank(s[k])) && (e < |s| ==> IsBlank(s[e]))
    ensures FirstWord(s) == s[..e]
    decreases e
  {
    if e > 0 {
      FirstWordIs(s[1..], e - 1);
      assert s[..e] == [s[0]] + s[1..][..e - 1];
    }
  }

  lemma FirstWordStarts(s: seq<byte>)
    ensures FirstWord(s) != [] ==> s != [] && FirstWord(s)[0] == s[0]
  {
  }

  lemma AfterType(t: seq<byte>, tail: seq<byte>)
    ensures var s := WithTail(t, tail);
      && |s| >= |t| && (tail == [] ==> s == t)
      && (forall k :: 0 <= k < |t| ==> s[k] == t[k]) && s[|t|..] == (if tail == [] then [] else [SPACE] + tail)
      && (tail != [] ==> |t| + 1 < |s| && s[|t|] == SPACE && s[|t| + 1..] == tail && s[|t| + 1] == tail[0])
  {
  }

  /** Inside the type, words are what they are without the tail. */
  lemma {:induction false} WordKept(t: seq<byte>, tail: seq<byte>, i: nat)
    requires i <= |t|
    ensures FirstWord(WithTail(t, tail)[i..]) == FirstWord(t[i..])
    decreases |t| - i
  {
    var s := WithTail(t, tail);
    AfterType(t, tail);
    hide WithTail;
    if i == |t| {
      assert t[i..] == [];
    } else if !IsBlank(t[i]) {
      WordKept(t, tail, i + 1);
      assert s[i..][1..] == s[i + 1..] && t[i..][1..] == t[i + 1..];
    }
  }

  /** A keyword of the type is one that the scan stops at. */
  lemma KeyedIff(t: seq<byte>, tail: seq<byte>, i: nat)
    requires i < |t|
    ensures i < |WithTail(t, tail)| && (CutsAt(WithTail(t, tail), i, DepthAfter(t, i + 1)) <==> Keyed(t, i))
  {
    var s := WithTail(t, tail);
    AfterType(t, tail);
    WordKept(t, tail, i);
    hide WithTail, EndsTypes, FirstWord, CutsAt;
    CutsIff(s, i, DepthAfter(t, i + 1));
  }

  lemma KeywordsStart(word: seq<byte>)
    requires EndsTypes(word)
    ensures word != [] && word[0] != OPEN && word[0] != CLOSE && word[0] != QUOTE
  {
  }

  /** A blank is not the start of a word. */
  lemma BlankCutsNothing(s: seq<byte>, n: nat)
    requires n < |s| && IsWs(s[n])
    ensures !CutsAt(s, n, 0)
  {
    assert FirstWord(s[n..]) == [];
    hide CutsAt, EndsTypes;
    CutsIff(s, n, 0);
    if EndsTypes([]) {
      KeywordsStart([]);
    }
  }

  lemma CutsNext(s: seq<byte>, n: nat)
    requires n + 1 < |s| && Deepen(0, s[n]) == 0 == Deepen(0, s[n + 1])
    requires !CutsAt(s, n, 0) && CutsAt(s, n + 1, 0)
    ensures TypeCut(s, n, 0) == n + 1
  {
    hide CutsAt;
  }

  lemma WordCuts(s: seq<byte>, n: nat)
    requires 0 < n < |s| && IsWs(s[n - 1]) && EndsTypes(FirstWord(s[n..]))
    ensures CutsAt(s, n, 0) && Deepen(0, s[n]) == 0
  {
    hide CutsAt, EndsTypes, FirstWord;
    KeywordsStart(FirstWord(s[n..]));
    FirstWordStarts(s[n..]);
    CutsIff(s, n, 0);
  }

  lemma TailCuts(t: seq<byte>, tail: seq<byte>)
    requires tail != [] && EndsTypes(FirstWord(tail))
    ensures var s := WithTail(t, tail); |t| < |s| && TypeCut(s, |t|, 0) == |t| + 1
  {
    AfterType(t, tail);
    hide WithTail, CutsAt, TypeCut, FirstWord, EndsTypes;
    var s := WithTail(t, tail);
    BlankCutsNothing(s, |t|);
    WordCuts(s, |t| + 1);
    CutsNext(s, |t|);
  }

  lemma {:induction false} TypeStops(t: seq<byte>, tail: seq<byte>, i: nat)
    requires (forall k :: 0 <= k < |t| ==> !Keyed(t, k)) && IsTail(tail) && Ends(t, tail) && i <= |t|
    ensures TypeCut(WithTail(t, tail), i, DepthAfter(t, i)) == if tail == [] then |t| else |t| + 1
    decreases |t| - i
  {
    hide WithTail, CutsAt, Keyed, EndsTypes, FirstWord;
    AfterType(t, tail);
    if i < |t| {
      KeyedIff(t, tail, i);
      TypeStops(t, tail, i + 1);
    } else if tail != [] {
      TailCuts(t, tail);
    }
  }

  lemma TrimTrimmed(pre: seq<byte>, s: seq<byte>, post: seq<byte>)
    requires Blank(pre) && Blank(post) && Trimmed(s)
    ensures Trim(pre + (s + post)) == s
  {
    assert (s + post)[0] == s[0];
    TrimStartBlanks(pre, s + post);
    TrimEndBlanks(s, post);
  }

  lemma WithTailTrimmed(t: seq<byte>, tail: seq<byte>)
    requires Trimmed(t) && IsTail(tail)
    ensures Trimmed(WithTail(t, tail))
    ensures Trim([SPACE] + WithTail(t, tail)) == WithTail(t, tail)
  {
    hide IsOneOf, Contained, FirstWord, Trim;
    var s := WithTail(t, tail);
    assert s[0] == t[0] && s + [] == s;
    TrimTrimmed([SPACE], s, []);
  }

  /** A type without such keywords is read whole, if it ends where a clause begins. */
  lemma TypeReads(t: seq<byte>, tail: seq<byte>)
    requires Trimmed(t) && (forall i :: 0 <= i < |t| ==> !Keyed(t, i)) && IsTail(tail) && Ends(t, tail)
    ensures TypeText([SPACE] + WithTail(t, tail)) == t
  {
    hide TypeCut, Trim, IsTail, Keyed, Trimmed, Ends;
    var s := WithTail(t, tail);
    WithTailTrimmed(t, tail);
    TypeStops(t, tail, 0);
    if tail == [] {
      assert s[..|t|] == [] + (t + []);
      TrimTrimmed([], t, []);
    } else {
      assert s[..|t| + 1] == [] + (t + [SPACE]);
      TrimTrimmed([], t, [SPACE]);
    }
  }

  /** A keyword that starts inside the type ends it there. */
  lemma {:induction false} KeywordEnds(t: seq<byte>, tail: seq<byte>, i: nat, k: nat)
    requires i <= k < |t| && Keyed(t, k)
    ensures TypeCut(WithTail(t, tail), i, DepthAfter(t, i)) <= k
    decreases k - i
  {
    var s := WithTail(t, tail);
    AfterType(t, tail);
    hide WithTail, CutsAt, Keyed;
    KeyedIff(t, tail, i);
    if i < k {
      KeywordEnds(t, tail, i + 1, k);
    }
  }

  lemma TrimShortens(s: seq<byte>)
    ensures |Trim(s)| <= |s|
  {
  }

  lemma CutShort(t: seq<byte>, tail: seq<byte>, k: nat)
    requires Trimmed(t) && IsTail(tail) && k < |t| && Keyed(t, k)
    ensures |TypeText([SPACE] + WithTail(t, tail))| <= k
  {
    hide TypeCut, Keyed, Trim, IsTail, Trimmed;
    KeywordEnds(t, tail, 0, k);
    WithTailTrimmed(t, tail);
    TrimShortens(WithTail(t, tail)[..TypeCut(WithTail(t, tail), 0, 0)]);
  }

  /** Without a keyword in it, a type is never cut before its end. */
  lemma {:induction false} NotBefore(t: seq<byte>, tail: seq<byte>, i: nat)
    requires (forall k :: 0 <= k < |t| ==> !Keyed(t, k)) && i <= |t|
    ensures var s := WithTail(t, tail); TypeCut(s, i, DepthAfter(t, i)) == TypeCut(s, |t|, DepthAfter(t, |t|))
    decreases |t| - i
  {
    if i < |t| {
      var s := WithTail(t, tail);
      AfterType(t, tail);
      hide WithTail, CutsAt, Keyed;
      KeyedIff(t, tail, i);
      NotBefore(t, tail, i + 1);
    }
  }

  /** At another depth the clause is not seen to begin. */
  lemma RunsOn(s: seq<byte>, n: nat, d: int)
    requires n + 1 < |s| && d != 0 && Deepen(d, s[n]) == d == Deepen(d, s[n + 1])
    ensures TypeCut(s, n, d) >= n + 2
  {
  }

  /** Trimming never takes away what is not blank. */
  lemma TrimKeeps(s: seq<byte>, n: nat)
    requires n < |s| && !IsWs(s[0]) && !IsWs(s[n])
    ensures |Trim(s)| > n
    decreases |s|
  {
    assert TrimStart(s) == s;
    EndKeeps(s, n);
  }

  lemma {:induction false} EndKeeps(s: seq<byte>, n: nat)
    requires n < |s| && !IsWs(s[n])
    ensures |TrimEnd(s)| > n
    decreases |s|
  {
    if IsWs(s[|s| - 1]) {
      EndKeeps(s[..|s| - 1], n);
    }
  }

  lemma SwallowsFirst(t: seq<byte>, tail: seq<byte>)
    requires tail != [] && EndsTypes(FirstWord(tail)) && DepthAfter(t, |t|) != 0
    ensures TypeCut(WithTail(t, tail), |t|, DepthAfter(t, |t|)) >= |t| + 2
  {
    AfterType(t, tail);
    hide WithTail, TypeCut, FirstWord, DepthAfter, EndsTypes;
    KeywordsStart(FirstWord(tail));
    FirstWordStarts(tail);
    RunsOn(WithTail(t, tail), |t|, DepthAfter(t, |t|));
  }

  /** Where parens do not balance, the clause is taken for part of the type. */
  lemma Swallowed(t: seq<byte>, tail: seq<byte>)
    requires Trimmed(t) && (forall i :: 0 <= i < |t| ==> !Keyed(t, i)) && IsTail(tail) && !Ends(t, tail)
    ensures |TypeText([SPACE] + WithTail(t, tail))| > |t|
  {
    var s := WithTail(t, tail);
    var cut := TypeCut(s, 0, 0);
    NotBefore(t, tail, 0);
    SwallowsFirst(t, tail);
    WithTailTrimmed(t, tail);
    assert s[0] == t[0] && s[|t| + 1] == tail[0] && !IsWs(tail[0]);
    hide TypeCut, Trim, Keyed, IsTail;
    TrimKeeps(s[..cut], |t| + 1);
  }

  /**
   * Exactly when a type is recovered: when no keyword that ends types starts a word in it at
   * paren depth zero, and a clause, if there is one, begins at depth zero. Quotes protect
   * neither keywords nor parens.
   */
  lemma TypeReadsIff(t: seq<byte>, tail: seq<byte>)
    requires Trimmed(t) && IsTail(tail)
    ensures TypeText([SPACE] + WithTail(t, tail)) == t <==> (forall i :: 0 <= i < |t| ==> !Keyed(t, i)) && Ends(t, tail)
  {
    hide IsTail, TypeText, Keyed, Trimmed, Ends;
    if k :| 0 <= k < |t| && Keyed(t, k) {
      CutShort(t, tail, k);
    } else if Ends(t, tail) {
      TypeReads(t, tail);
    } else {
      Swallowed(t, tail);
    }
  }

  lemma KeywordFirst(s: seq<byte>, text: string)
    requires BeginsWord(s, text) && forall i :: 0 <= i < |text| ==> 'A' <= text[i] <= 'Z'
    ensures Spells(FirstWord(s), text)
  {
    forall k | 0 <= k < |text|
      ensures !IsBlank(s[k])
    {
      assert SameLetter(s[..|text|][k], text[k]);
    }
    FirstWordIs(s, |text|);
  }

  lemma TwoWords(s: seq<byte>, text: string, n: nat)
    requires BeginsWord(s, text) && n < |text| && text[n] == ' '
    ensures BeginsWord(s, text[..n])
  {
    assert SameLetter(s[..|text|][n], text[n]);
    forall i | 0 <= i < n
      ensures SameLetter(s[..n][i], text[..n][i])
    {
      assert SameLetter(s[..|text|][i], text[i]);
    }
  }

  lemma ClauseKeyword(s: seq<byte>, c: Clause)
    requires BeginsWord(s, ClauseText(c))
    ensures EndsTypes(FirstWord(s))
  {
    hide FirstWord, BeginsWord;
    match c
    case NotNull =>
      TwoWords(s, "NOT NULL", 3);
      assert "NOT NULL"[..3] == "NOT";
      KeywordFirst(s, "NOT");
    case PrimaryKey =>
      TwoWords(s, "PRIMARY KEY", 7);
      assert "PRIMARY KEY"[..7] == "PRIMARY";
      KeywordFirst(s, "PRIMARY");
    case _ => KeywordFirst(s, ClauseText(c));
  }

  /** Before any clause that `pg_dump` writes, in either case, the type is read as it stands. */
  lemma ClauseEndsType(t: seq<byte>, c: Clause, clause: seq<byte>)
    requires Trimmed(t) && (forall i :: 0 <= i < |t| ==> !Keyed(t, i)) && DepthAfter(t, |t|) == 0
    requires Trimmed(clause) && BeginsWord(clause, ClauseText(c))
    ensures TypeText([SPACE] + (t + ([SPACE] + clause))) == t
  {
    hide Keyed, DepthAfter, TypeText, EndsTypes, BeginsWord, FirstWord;
    ClauseKeyword(clause, c);
    TypeReads(t, clause);
  }

  /** The type `"a(b"` is read alone, but swallows a clause after it. */
  lemma QuotedParenSwallows()
    ensures var t, tail := Ascii("\"a(b\""), Ascii("NOT NULL");
      && Trimmed(t) && Contained(t, false) && IsTail(tail)
      && TypeText([SPACE] + t) == t
      && |TypeText([SPACE] + WithTail(t, tail))| > |t|
  {
    var t, tail := Ascii("\"a(b\""), Ascii("NOT NULL");
    ParenInQuotes(t);
    NotNullIsTail(tail);
    assert WithTail(t, []) == t;
    hide TypeText, IsTail, Keyed, Contained, Trimmed;
    TypeReads(t, []) by { assert IsTail([]); }
    Swallowed(t, tail);
  }

  lemma ParenContained(t: seq<byte>)
    requires t == [QUOTE, 97, OPEN, 98, QUOTE]
    ensures Contained(t, false)
  {
    var id := Ident([97, OPEN, 98], true);
    assert id.name[1..] == [OPEN, 98] && [OPEN, 98][1..] == [98] && [98][1..] == [];
    assert Doubled([98]) == [98] && Doubled([OPEN, 98]) == [OPEN, 98];
    assert Doubled(id.name) == id.name;
    assert PrintIdent(id) == t;
    hide Contained, PrintIdent;
    IdentContained(id);
  }

  /** A single word that begins with a quote holds no keyword. */
  lemma QuotedWord(t: seq<byte>, i: nat)
    requires i < |t| && t[0] == QUOTE && forall k :: 0 <= k < |t| ==> !IsWs(t[k])
    ensures !Keyed(t, i)
  {
    hide EndsTypes, DepthAfter;
    if i == 0 {
      FirstWordIs(t, |t|);
      assert t[0..] == t[..|t|] == t;
      if EndsTypes(t) {
        KeywordsStart(t);
      }
    }
  }

  lemma ParenOpens(t: seq<byte>)
    requires t == [QUOTE, 97, OPEN, 98, QUOTE]
    ensures Trimmed(t) && DepthAfter(t, |t|) == 1
  {
    NoParens(t, 2);
    assert DepthAfter(t, 3) == 1 && DepthAfter(t, 4) == 1;
  }

  lemma ParenInQuotes(t: seq<byte>)
    requires t == Ascii("\"a(b\"")
    ensures Trimmed(t) && Contained(t, false) && DepthAfter(t, |t|) == 1 && forall i :: 0 <= i < |t| ==> !Keyed(t, i)
  {
    assert t == [QUOTE, 97, OPEN, 98, QUOTE];
    hide Contained, Keyed, Ascii, Trimmed, DepthAfter;
    ParenContained(t);
    ParenOpens(t);
    forall i | 0 <= i < |t| ensures !Keyed(t, i) {
      QuotedWord(t, i);
    }
  }

  lemma NotNullIsTail(tail: seq<byte>)
    requires tail == Ascii("NOT NULL")
    ensures IsTail(tail)
  {
    assert tail[0] == 78 && tail[7] == 76;
    FirstWordIs(tail, 3);
    assert Spells(tail[..3], "NOT");
  }

  /** The type `public."my not null"` loses its end. */
  lemma QuotedKeywordCuts()
    ensures var t := Ascii("public.\"my not null\"");
      Trimmed(t) && |t| == 20 && |TypeText([SPACE] + t)| <= 11
  {
    var t := Ascii("public.\"my not null\"");
    NotIsKeyed(t);
    hide TypeText, Keyed, Trimmed, Ascii;
    assert IsTail([]) && WithTail(t, []) == t;
    CutShort(t, [], 11);
  }

  lemma {:induction false} NoParens(t: seq<byte>, k: nat)
    requires k <= |t| && forall i :: 0 <= i < k ==> t[i] != OPEN && t[i] != CLOSE
    ensures DepthAfter(t, k) == 0
  {
    if k > 0 {
      NoParens(t, k - 1);
    }
  }

  lemma NotIsKeyed(t: seq<byte>)
    requires t == Ascii("public.\"my not null\"")
    ensures |t| == 20 && Trimmed(t) && Keyed(t, 11)
  {
    assert t[0] == 112 && t[19] == 34;
    NoParens(t, 12);
    FirstWordIs(t[11..], 3);
    assert Spells(t[11..][..3], "NOT");
  }

  // ---------------------------------------------------------------- items

  function Defines(item: Item): (c: Option<ColumnDef>) {
    if item.Column? then Some(ColumnDef(item.id.name, item.sqlType)) else None
  }

  lemma LeadersStart(word: seq<byte>)
    requires LeadsConstraint(word)
    ensures word != [] && word[0] != QUOTE
  {
  }

  lemma BareFirst(id: Ident, rest: seq<byte>)
    requires IsIdent(id) && !id.quoted
    ensures FirstWord(PrintIdent(id) + ([SPACE] + rest)) == id.name
  {
    var s := PrintIdent(id) + ([SPACE] + rest);
    assert forall k :: 0 <= k < |id.name| ==> s[k] == id.name[k];
    assert s[|id.name|] == SPACE;
    FirstWordIs(s, |id.name|);
    assert s[..|id.name|] == id.name;
  }

  /** A column's first word is no constraint keyword: it is its bare name, or begins with a quote. */
  lemma ColumnIsNoConstraint(id: Ident, rest: seq<byte>)
    requires IsIdent(id) && (id.quoted || !LeadsConstraint(id.name))
    ensures !LeadsConstraint(FirstWord(PrintIdent(id) + ([SPACE] + rest)))
  {
    hide LeadsConstraint;
    var s := PrintIdent(id) + ([SPACE] + rest);
    if id.quoted {
      assert s[0] == QUOTE;
      FirstWordStarts(s);
      if LeadsConstraint(FirstWord(s)) {
        LeadersStart(FirstWord(s));
      }
    } else {
      BareFirst(id, rest);
    }
  }

  /** An item that begins with a constraint keyword defines nothing. */
  lemma ConstraintSkipped(item: seq<byte>)
    requires Trim(item) == item
    ensures item != [] && LeadsConstraint(FirstWord(item)) ==> ColumnOf(item) == None
    ensures item != [] && !LeadsConstraint(FirstWord(item)) ==>
      ColumnOf(item) == match TakeIdentifier(item)
        case None => None
        case Some((name, tail)) => if TypeText(tail) == [] then None else Some(ColumnDef(name, TypeText(tail)))
  {
    hide TakeIdentifier, TypeText, LeadsConstraint, IsOneOf, Trim, FirstWord;
    LeadsConstraintIff(FirstWord(item));
    WordIs(item, 0);
    assert item[0..] == item && item[0..WordEnd(item, 0)] == item[..WordEnd(item, 0)];
  }

  lemma ItemTrimmed(item: Item)
    requires IsItem(item)
    ensures Trimmed(PrintItem(item))
  {
    hide IsOneOf, Contained, CutsAt, DepthAfter;
    if item.Column? {
      IdentEnds(item.id);
      var s := PrintItem(item);
      assert s[0] == PrintIdent(item.id)[0];
    }
  }

  lemma ColumnReads(id: Ident, t: seq<byte>, tail: seq<byte>)
    requires IsIdent(id) && (id.quoted || !LeadsConstraint(id.name)) && IsType(t) && IsTail(tail) && Ends(t, tail)
    ensures ColumnOf(PrintIdent(id) + ([SPACE] + WithTail(t, tail))) == Some(ColumnDef(id.name, t))
  {
    var rest := WithTail(t, tail);
    var text := PrintIdent(id) + ([SPACE] + rest);
    ColumnTrimmed(id, t, tail);
    ColumnIsNoConstraint(id, rest);
    NoBlanks();
    hide TakeIdentifier, TypeText, LeadsConstraint, Trim, PrintIdent, IsIdent, WithTail, Contained, Keyed, IsTail, Ends, FirstWord, ColumnOf;
    IdentReads([], id, [SPACE] + rest);
    assert [] + text == text;
    TypeReads(t, tail);
    ConstraintSkipped(text);
  }

  lemma ColumnTrimmed(id: Ident, t: seq<byte>, tail: seq<byte>)
    requires IsIdent(id) && Trimmed(t) && IsTail(tail)
    ensures var text := PrintIdent(id) + ([SPACE] + WithTail(t, tail)); Trimmed(text) && Trim(text) == text
  {
    hide Contained, EndsTypes, Trim, FirstWord;
    IdentEnds(id);
    WithTailTrimmed(t, tail);
    var text := PrintIdent(id) + ([SPACE] + WithTail(t, tail));
    assert text[0] == PrintIdent(id)[0];
    TrimmedStays(text);
  }

  lemma TrimmedStays(s: seq<byte>)
    requires Trimmed(s)
    ensures Trim(s) == s
  {
  }

  /** Blanks around an item do not matter. */
  lemma ColumnOfTrimmed(pre: seq<byte>, text: seq<byte>, post: seq<byte>)
    requires Blank(pre) && Blank(post) && Trimmed(text)
    ensures ColumnOf(pre + (text + post)) == ColumnOf(text)
  {
    TrimTrimmed(pre, text, post);
    TrimmedStays(text);
    hide Trim, TakeIdentifier, TypeText, IsOneOf, WordEnd;
  }

  /** Each item is read as the column it defines, or as none. */
  lemma ItemReads(pre: seq<byte>, item: Item, post: seq<byte>)
    requires Blank(pre) && Blank(post) && IsItem(item)
    ensures ColumnOf(pre + (PrintItem(item) + post)) == Defines(item)
  {
    hide ColumnOf, LeadsConstraint, FirstWord, Contained, Keyed, IsTail, Ends, PrintIdent, IsIdent, WithTail, Trim;
    ItemTrimmed(item);
    ColumnOfTrimmed(pre, PrintItem(item), post);
    match item
    case Column(id, t, tail) => ColumnReads(id, t, tail);
    case Constraint(text) =>
      TrimmedStays(text);
      ConstraintSkipped(text);
  }

  lemma ItemContained(item: Item)
    requires IsItem(item)
    ensures Contained(PrintItem(item), false)
  {
    hide IsOneOf, CutsAt, DepthAfter, Contained;
    if item.Column? {
      IdentContained(item.id);
      SpaceContained();
      if item.tail != [] {
        ContainedAppend([SPACE], item.tail, false);
        ContainedAppend(item.sqlType, [SPACE] + item.tail, false);
      } else {
        assert item.sqlType + [] == item.sqlType;
      }
      ContainedAppend([SPACE], WithTail(item.sqlType, item.tail), false);
      ContainedAppend(PrintIdent(item.id), [SPACE] + WithTail(item.sqlType, item.tail), false);
    }
  }

  lemma SpaceContained()
    ensures Contained([SPACE], false)
  {
    PlainContained([SPACE]);
  }

  /** A column called like the start of a constraint, left unquoted, is passed over. */
  lemma KeywordColumnIsLost(id: Ident, t: seq<byte>, tail: seq<byte>)
    requires IsIdent(id) && !id.quoted && IsType(t) && IsTail(tail) && Ends(t, tail)
    ensures ColumnOf(PrintItem(Column(id, t, tail))).None? <==> LeadsConstraint(id.name)
  {
    hide ColumnOf, LeadsConstraint, Keyed, Ends, IsIdent, PrintIdent, WithTail, FirstWord, Trim, Contained, IsTail;
    if LeadsConstraint(id.name) {
      ColumnTrimmed(id, t, tail);
      BareFirst(id, WithTail(t, tail));
      ConstraintSkipped(PrintItem(Column(id, t, tail)));
    } else {
      ColumnReads(id, t, tail);
    }
  }

  /** PostgreSQL writes a column `exclude` without quotes, so it is one of them. */
  lemma ExcludeIsLost()
    ensures ColumnOf(Ascii("exclude integer")) == None
  {
    var s := Ascii("exclude integer");
    assert Trimmed(s) && !IsBlank(s[1]) && !IsBlank(s[2]) && !IsBlank(s[3]) && !IsBlank(s[4]) && !IsBlank(s[5]) && !IsBlank(s[6]);
    FirstWordIs(s, 7);
    assert Spells(s[..7], "EXCLUDE");
    hide ColumnOf, Trim, Spells;
    TrimmedStays(s);
    ConstraintSkipped(s);
  }

  /** A name without a type defines nothing. */
  lemma NoTypeNoColumn(id: Ident)
    requires IsIdent(id)
    ensures ColumnOf(PrintIdent(id)) == None
  {
    IdentEnds(id);
    NoBlanks();
    hide PrintIdent, IsIdent, TakeIdentifier, LeadsConstraint, FirstWord, ColumnOf;
    TrimmedStays(PrintIdent(id));
    IdentReads([], id, []);
    assert [] + (PrintIdent(id) + []) == PrintIdent(id);
    assert TypeText([]) == [];
    ConstraintSkipped(PrintIdent(id));
  }

  // ---------------------------------------------------------------- lists

  lemma PieceTaken(a: seq<byte>, rest: seq<byte>)
    requires Contained(a, false)
    ensures SplitWalk(a + rest, COMMA, TOP, []) == SplitWalk(rest, COMMA, TOP, a)
  {
    SplitTakes(a, rest, 0, false, []);
    assert [] + a == a;
  }

  /** The commas between pieces are the only ones at top level. */
  lemma {:induction false} SplitJoined(pieces: seq<seq<byte>>)
    requires pieces != [] && AllContained(pieces)
    ensures SplitTop(Joined(pieces), COMMA) == pieces
    decreases |pieces|
  {
    hide Contained;
    var first := pieces[0];
    assert Contained(first, false);
    if |pieces| == 1 {
      PieceTaken(first, []);
      assert first + [] == first;
      assert SplitWalk([], COMMA, TOP, first) == [first];
      assert pieces == [first];
    } else {
      var rest := [COMMA] + Joined(pieces[1..]);
      PieceTaken(first, rest);
      assert rest[1..] == Joined(pieces[1..]);
      SplitJoined(pieces[1..]);
    }
  }

  lemma {:induction false} JoinedContained(pieces: seq<seq<byte>>)
    requires AllContained(pieces)
    ensures Contained(Joined(pieces), true)
    decreases |pieces|
  {
    if pieces != [] {
      ContainedAllows(pieces[0]);
      if |pieces| > 1 {
        JoinedContained(pieces[1..]);
        CommaContained();
        hide Contained;
        ContainedAppend([COMMA], Joined(pieces[1..]), true);
        ContainedAppend(pieces[0], [COMMA] + Joined(pieces[1..]), true);
      }
    }
  }

  lemma CommaContained()
    ensures Contained([COMMA], true)
  {
    assert [COMMA][1..] == [];
  }

  lemma SpacedContained(pre: seq<byte>, s: seq<byte>, post: seq<byte>)
    requires Blank(pre) && Blank(post) && Contained(s, false)
    ensures Contained(pre + (s + post), false)
  {
    PlainContained(pre);
    PlainContained(post);
    hide Contained;
    ContainedAppend(s, post, false);
    ContainedAppend(pre, s + post, false);
  }

  /** Text in parens after a gap: where the parens are, and what is between them. */
  lemma ParensFound(gap: seq<byte>, inner: seq<byte>, trailing: seq<byte>)
    requires Blank(gap) && Contained(inner, true)
    ensures var rest := gap + ([OPEN] + (inner + ([CLOSE] + trailing)));
      var close := |gap| + 1 + |inner|;
      && IndexOf(rest, OPEN) == |gap| < |rest|
      && MatchWalk(rest, |gap|, TOP) == Some(close)
      && close <= |rest| && rest[|gap| + 1..close] == inner
      && Delimits(rest) && rest[0] != DOT
  {
    var rest := gap + ([OPEN] + (inner + ([CLOSE] + trailing)));
    IndexOfIs(rest, OPEN, |gap|);
    var i := |gap| + 1;
    assert rest[i..i + |inner|] == inner && rest[i + |inner|] == CLOSE;
    MatchTakes(rest, i, inner, 0, false);
    assert rest[|gap|] == OPEN;
  }

  // ---------------------------------------------------------------- statements

  /** The columns a list of items defines, in order. */
  function ColumnsDefined(ps: seq<Spaced>): (cs: seq<ColumnDef>)
    decreases |ps|
  {
    if ps == [] then []
    else (if ps[0].item.Column? then [Defines(ps[0].item).value] else []) + ColumnsDefined(ps[1..])
  }

  lemma {:induction false} ItemsRead(ps: seq<Spaced>)
    requires forall i :: 0 <= i < |ps| ==> IsSpaced(ps[i])
    ensures ColumnsOf(PrintAll(ps)) == ColumnsDefined(ps)
    decreases |ps|
  {
    if ps != [] {
      assert IsSpaced(ps[0]);
      hide ColumnOf, IsItem, PrintItem;
      ItemReads(ps[0].pre, ps[0].item, ps[0].post);
      assert PrintAll(ps)[1..] == PrintAll(ps[1..]);
      ItemsRead(ps[1..]);
    }
  }

  lemma ItemsContained(ps: seq<Spaced>)
    requires forall i :: 0 <= i < |ps| ==> IsSpaced(ps[i])
    ensures AllContained(PrintAll(ps))
  {
    hide Contained, IsItem, PrintItem;
    forall i | 0 <= i < |ps|
      ensures Contained(PrintAll(ps)[i], false)
    {
      assert IsSpaced(ps[i]);
      ItemContained(ps[i].item);
      SpacedContained(ps[i].pre, PrintItem(ps[i].item), ps[i].post);
    }
  }

  lemma StripsPrefix(prefix: seq<byte>, s: seq<byte>)
    ensures StripPrefixCi(prefix + s, prefix) == Some(s)
  {
    assert (prefix + s)[..|prefix|] == prefix && (prefix + s)[|prefix|..] == s;
  }

  lemma StripsCreate(unlogged: bool, s: seq<byte>)
    ensures TrimStart(Prefix(unlogged) + s) == Prefix(unlogged) + s
    ensures StripCreateTable(Prefix(unlogged) + s) == Some(s)
  {
    var prefix := Prefix(unlogged);
    var ddl := prefix + s;
    StripsPrefix(prefix, s);
    assert ddl[0] == prefix[0] == 67;
    if unlogged {
      assert ddl[..13][7] == ddl[7] == prefix[7] == 85 && Ascii("CREATE TABLE ")[7] == 84;
      assert StripPrefixCi(ddl, Ascii("CREATE TABLE ")) == None;
    }
  }

  lemma EmptyList()
    ensures ColumnsOf(SplitTop([], COMMA)) == []
  {
    var pieces := SplitTop([], COMMA);
    assert pieces == [[]] && pieces[1..] == [];
    assert ColumnOf([]) == None;
  }

  lemma ListReads(ps: seq<Spaced>)
    requires forall i :: 0 <= i < |ps| ==> IsSpaced(ps[i])
    ensures ColumnsOf(SplitTop(Joined(PrintAll(ps)), COMMA)) == ColumnsDefined(ps)
    ensures Contained(Joined(PrintAll(ps)), true)
  {
    hide ColumnsOf, SplitTop, Contained, IsSpaced, PrintSpaced;
    ItemsContained(ps);
    JoinedContained(PrintAll(ps));
    if ps == [] {
      EmptyList();
    } else {
      SplitJoined(PrintAll(ps));
      ItemsRead(ps);
    }
  }

  lemma CreateParses(ddl: seq<byte>, after: seq<byte>, name: TableName, rest: seq<byte>, close: nat, inner: seq<byte>)
    requires TrimStart(ddl) == ddl && StripCreateTable(ddl) == Some(after) && TakeQualified(after) == Some((name, rest))
    requires var open := IndexOf(rest, OPEN);
      open < |rest| && MatchWalk(rest, open, TOP) == Some(close) && rest[open + 1..close] == inner
    ensures ParseCreateTable(ddl) == Ok(TableDef(name, ColumnsOf(SplitTop(inner, COMMA))))
  {
    hide ColumnsOf, SplitTop, MatchWalk, IndexOf, TakeQualified, StripCreateTable, TrimStart;
  }

  /** A name and a parenthesised list: both are found. */
  lemma NameAndListRead(name: Name, gap: seq<byte>, inner: seq<byte>, trailing: seq<byte>)
    requires IsName(name) && Blank(gap) && Contained(inner, true)
    ensures var rest := gap + ([OPEN] + (inner + ([CLOSE] + trailing)));
      TakeQualified(PrintName(name) + rest) == Some((Named(name), rest))
  {
    hide Contained, MatchWalk, IndexOf, TakeQualified, PrintName, IsName, Delimits, Blank;
    ParensFound(gap, inner, trailing);
    var rest := gap + ([OPEN] + (inner + ([CLOSE] + trailing)));
    NoBlanks();
    NameReads([], name, rest);
    assert [] + (PrintName(name) + rest) == PrintName(name) + rest;
  }

  lemma CreateReads(unlogged: bool, name: Name, gap: seq<byte>, inner: seq<byte>, trailing: seq<byte>)
    requires IsName(name) && Blank(gap) && Contained(inner, true)
    ensures ParseCreateTable(Prefix(unlogged) + (PrintName(name) + (gap + ([OPEN] + (inner + ([CLOSE] + trailing)))))) ==
      Ok(TableDef(Named(name), ColumnsOf(SplitTop(inner, COMMA))))
  {
    hide *;
    var rest := gap + ([OPEN] + (inner + ([CLOSE] + trailing)));
    NameAndListRead(name, gap, inner, trailing);
    ParensFound(gap, inner, trailing);
    StripsCreate(unlogged, PrintName(name) + rest);
    CreateParses(Prefix(unlogged) + (PrintName(name) + rest), PrintName(name) + rest, Named(name), rest, |gap| + 1 + |inner|, inner);
  }

  /**
   * A `CREATE TABLE` statement is read back exactly: name, columns and types in order, whatever
   * commas, dots, parens and quotes its quoted identifiers contain, with table constraints
   * passed over and any trailing clause ignored.
   */
  lemma CreateRoundTrip(unlogged: bool, name: Name, gap: seq<byte>, ps: seq<Spaced>, trailing: seq<byte>)
    requires IsName(name) && Blank(gap) && forall i :: 0 <= i < |ps| ==> IsSpaced(ps[i])
    ensures ParseCreateTable(PrintCreate(unlogged, name, gap, ps, trailing)) == Ok(TableDef(Named(name), ColumnsDefined(ps)))
  {
    hide ColumnsOf, SplitTop, Contained, IsSpaced, PrintAll, Joined, PrintName, IsName, Prefix, Blank, ParseCreateTable, ColumnsDefined;
    ListReads(ps);
    CreateReads(unlogged, name, gap, Joined(PrintAll(ps)), trailing);
  }

  lemma {:induction false} StartTrims(ws: seq<byte>, s: seq<byte>)
    requires Blank(ws)
    ensures TrimStart(ws + s) == TrimStart(s)
    decreases |ws|
  {
    if ws == [] {
      assert ws + s == s;
    } else {
      assert (ws + s)[1..] == ws[1..] + s;
      StartTrims(ws[1..], s);
    }
  }

  /** Blanks before a statement or a header do not matter. */
  lemma BlanksBefore(ws: seq<byte>, s: seq<byte>)
    requires Blank(ws)
    ensures ParseCreateTable(ws + s) == ParseCreateTable(s)
    ensures ParseCopyHeader(ws + s) == ParseCopyHeader(s)
  {
    hide TrimStart, Blank, StripCreateTable, StripPrefixCi, TakeQualified, ColumnsOf, HeaderColumns, MatchWalk;
    StartTrims(ws, s);
  }

  lemma NoBlanks()
    ensures Blank([])
  {
  }

  // ---------------------------------------------------------------- headers

  function ListedNames(cs: seq<Listed>): (names: seq<seq<byte>>)
    ensures |names| == |cs| && forall i :: 0 <= i < |cs| ==> names[i] == cs[i].id.name
  {
    seq(|cs|, i requires 0 <= i < |cs| => cs[i].id.name)
  }

  lemma {:induction false} ListedRead(cs: seq<Listed>)
    requires forall i :: 0 <= i < |cs| ==> IsListed(cs[i])
    ensures NamesOf(PrintListed(cs)) == ListedNames(cs)
    decreases |cs|
  {
    if cs != [] {
      assert IsListed(cs[0]);
      hide TakeIdentifier, PrintIdent, IsIdent;
      IdentReads(cs[0].pre, cs[0].id, cs[0].post);
      assert PrintListed(cs)[1..] == PrintListed(cs[1..]);
      ListedRead(cs[1..]);
      assert ListedNames(cs) == [cs[0].id.name] + ListedNames(cs[1..]);
    }
  }

  lemma ListedContained(cs: seq<Listed>)
    requires forall i :: 0 <= i < |cs| ==> IsListed(cs[i])
    ensures AllContained(PrintListed(cs))
  {
    hide Contained, IsIdent, PrintIdent;
    forall i | 0 <= i < |cs|
      ensures Contained(PrintListed(cs)[i], false)
    {
      assert IsListed(cs[i]);
      IdentContained(cs[i].id);
      SpacedContained(cs[i].pre, PrintIdent(cs[i].id), cs[i].post);
    }
  }

  const COPY: seq<byte> := Ascii("COPY ")

  lemma StripsCopy(s: seq<byte>)
    ensures TrimStart(COPY + s) == COPY + s && StripPrefixCi(COPY + s, COPY) == Some(s)
  {
    StripsPrefix(COPY, s);
    assert (COPY + s)[0] == COPY[0] == 67;
  }

  lemma NoNames()
    ensures NamesOf(SplitTop([], COMMA)) == []
  {
    var pieces := SplitTop([], COMMA);
    assert pieces == [[]] && pieces[1..] == [];
    assert TakeIdentifier([]) == None;
  }

  lemma NamesRead(cs: seq<Listed>)
    requires forall i :: 0 <= i < |cs| ==> IsListed(cs[i])
    ensures NamesOf(SplitTop(Joined(PrintListed(cs)), COMMA)) == ListedNames(cs)
    ensures Contained(Joined(PrintListed(cs)), true)
  {
    hide NamesOf, SplitTop, Contained, IsListed;
    ListedContained(cs);
    JoinedContained(PrintListed(cs));
    if cs == [] {
      NoNames();
    } else {
      SplitJoined(PrintListed(cs));
      ListedRead(cs);
    }
  }

  /** A `COPY` header is read back exactly: the table and its columns in order. */
  lemma HeaderRoundTrip(name: Name, gap: seq<byte>, cs: seq<Listed>, trailing: seq<byte>)
    requires IsName(name) && Blank(gap) && forall i :: 0 <= i < |cs| ==> IsListed(cs[i])
    ensures ParseCopyHeader(PrintHeader(name, gap, cs, trailing)) == Ok((Named(name), ListedNames(cs)))
  {
    hide NamesOf, SplitTop, Contained, IsListed, PrintListed, Joined, MatchWalk, IndexOf, TakeQualified, PrintName, IsName;
    hide StripPrefixCi, TrimStart, Delimits, ListedNames, Blank;
    var inner := Joined(PrintListed(cs));
    NamesRead(cs);
    ParensFound(gap, inner, trailing);
    NameAndListRead(name, gap, inner, trailing);
    StripsCopy(PrintName(name) + (gap + ([OPEN] + (inner + ([CLOSE] + trailing)))));
  }

  lemma {:induction false} NamesApart(front: seq<seq<byte>>, back: seq<seq<byte>>)
    ensures NamesOf(front + back) == NamesOf(front) + NamesOf(back)
    decreases |front|
  {
    if front == [] {
      assert front + back == back;
    } else {
      hide TakeIdentifier;
      assert (front + back)[1..] == front[1..] + back;
      NamesApart(front[1..], back);
    }
  }

  lemma BlankNamesNothing(ws: seq<byte>)
    requires Blank(ws)
    ensures NamesOf([ws]) == []
  {
    assert ws + [] == ws;
    TrimStartBlanks(ws, []);
    assert BareName([]) == [] && TakeIdentifier(ws) == None;
    var one := [ws];
    assert one[1..] == [];
  }

  lemma {:induction false} BlankHolds(ws: seq<byte>)
    requires Blank(ws)
    ensures Contained(ws, false)
    decreases |ws|
  {
    if ws != [] {
      BlankHolds(ws[1..]);
    }
  }

  /** An entry of a column list that is blank is passed over. */
  lemma BlankEntrySkipped(name: Name, gap: seq<byte>, front: seq<Listed>, ws: seq<byte>, back: seq<Listed>, trailing: seq<byte>)
    requires IsName(name) && Blank(gap) && Blank(ws)
    requires (forall i :: 0 <= i < |front| ==> IsListed(front[i])) && forall i :: 0 <= i < |back| ==> IsListed(back[i])
    ensures var pieces := PrintListed(front) + [ws] + PrintListed(back);
      ParseCopyHeader(COPY + (PrintName(name) + (gap + (['(' as int] + (Joined(pieces) + ([')' as int] + trailing))))))
        == Ok((Named(name), ListedNames(front) + ListedNames(back)))
  {
    hide NamesOf, SplitTop, Contained, IsListed, PrintListed, Joined, MatchWalk, IndexOf, TakeQualified, PrintName, IsName;
    hide StripPrefixCi, TrimStart, Delimits, ListedNames, Blank;
    var pieces := PrintListed(front) + [ws] + PrintListed(back);
    ListedContained(front);
    ListedContained(back);
    BlankHolds(ws);
    JoinedContained(pieces);
    SplitJoined(pieces);
    ListedRead(front);
    ListedRead(back);
    NamesApart(PrintListed(front) + [ws], PrintListed(back));
    NamesApart(PrintListed(front), [ws]);
    BlankNamesNothing(ws);
    assert ListedNames(front) + [] == ListedNames(front);
    ParensFound(gap, Joined(pieces), trailing);
    NameAndListRead(name, gap, Joined(pieces), trailing);
    StripsCopy(PrintName(name) + (gap + ([OPEN] + (Joined(pieces) + ([CLOSE] + trailing)))));
  }

  /** A header without a list names no columns. */
  lemma HeaderWithoutList(name: Name, trailing: seq<byte>)
    requires IsName(name) && Delimits(trailing) && (trailing == [] || trailing[0] != DOT)
    requires forall i :: 0 <= i < |trailing| ==> trailing[i] != OPEN
    ensures ParseCopyHeader(COPY + (PrintName(name) + trailing)) == Ok((Named(name), []))
  {
    hide TakeQualified, PrintName, IsName, StripPrefixCi, TrimStart;
    NoBlanks();
    NameReads([], name, trailing);
    assert [] + (PrintName(name) + trailing) == PrintName(name) + trailing;
    IndexOfIs(trailing, OPEN, |trailing|);
    StripsCopy(PrintName(name) + trailing);
  }
}
