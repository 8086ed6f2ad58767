/** A printed `CREATE TABLE` statement as the scanner sees it, line by line. */
module DdlScan {
  import opened Bytes
  import opened SqlPrint
  import opened SqlText
  import opened Scan
  import opened DdlRoundTrip

  // ---------------------------------------------------------------- statements cut short

  /** A name cut off inside a quoted identifier is unterminated, or ends where it was cut. */
  predicate Nothing(r: Option<(seq<byte>, seq<byte>)>) {
    r.Some? ==> r.value.1 == []
  }

  lemma {:induction false} QuotedCut(name: seq<byte>, j: nat)
    requires j <= |Doubled(name) + [QUOTE]|
    ensures Nothing(QuotedRest((Doubled(name) + [QUOTE])[..j]))
    decreases |name|
  {
    var whole := Doubled(name) + [QUOTE];
    var s := whole[..j];
    if name != [] && j > 0 {
      var head := if name[0] == QUOTE then [QUOTE, QUOTE] else [name[0]];
      var tail := Doubled(name[1..]) + [QUOTE];
      assert whole == head + tail;
      if j >= |head| {
        assert s == head + tail[..j - |head|];
        QuotedCut(name[1..], j - |head|);
        OneMore(name[0], tail[..j - |head|]);
      } else {
        assert s == [QUOTE] && s[1..] == [];
      }
    }
  }

  lemma {:induction false} BareCut(s: seq<byte>)
    requires forall i :: 0 <= i < |s| ==> !EndsBare(s[i])
    ensures BareName(s) == s
    decreases |s|
  {
    if s != [] {
      BareCut(s[1..]);
      assert [s[0]] + s[1..] == s;
    }
  }

  lemma IdentCut(id: Ident, j: nat)
    requires IsIdent(id) && j <= |PrintIdent(id)|
    ensures Nothing(TakeIdentifier(PrintIdent(id)[..j]))
  {
    var s := PrintIdent(id)[..j];
    if j > 0 {
      IdentEnds(id);
      assert s[0] == PrintIdent(id)[0];
      assert TrimStart(s) == s;
      if id.quoted {
        assert s[1..] == (Doubled(id.name) + [QUOTE])[..j - 1];
        QuotedCut(id.name, j - 1);
      } else {
        BareCut(s);
        assert s[|s|..] == [];
      }
    }
  }

  /** A qualified name cut off: nothing is left after it, if it reads at all. */
  lemma NameCut(n: Name, j: nat)
    requires IsName(n) && j <= |PrintName(n)|
    ensures var r := TakeQualified(PrintName(n)[..j]); r.Some? ==> r.value.1 == []
  {
    hide TakeIdentifier, IsIdent, PrintIdent;
    var s := PrintName(n)[..j];
    if n.schema.None? {
      assert PrintName(n) == PrintIdent(n.table);
      IdentCut(n.table, j);
    } else {
      var first := PrintIdent(n.schema.value);
      if j <= |first| {
        assert s == first[..j];
        IdentCut(n.schema.value, j);
      } else {
        var second := PrintIdent(n.table)[..j - |first| - 1];
        assert s == [] + (first + ([DOT] + second));
        NoBlanks();
        IdentReads([], n.schema.value, [DOT] + second);
        assert ([DOT] + second)[1..] == second;
        IdentCut(n.table, j - |first| - 1);
      }
    }
  }

  /** Text that has not closed its paren yet. */
  lemma {:induction false} MatchNone(s: seq<byte>, i: nat, inner: seq<byte>, j: nat, depth: nat, quoted: bool)
    requires HoldsFrom(inner, depth, quoted, true) && j <= |inner| && i <= |s| && s[i..] == inner[..j]
    ensures MatchWalk(s, i, Nest(depth + 1, quoted)) == None
    decreases j
  {
    if j > 0 {
      assert s[i] == s[i..][0] == inner[0];
      assert s[i + 1..] == s[i..][1..] && inner[1..][..j - 1] == inner[..j][1..];
      HoldsNext(inner, depth, quoted, true);
      var n := Walk(Nest(depth, quoted), inner[0]);
      MatchNone(s, i + 1, inner[1..], j - 1, n.depth, n.quoted);
    }
  }

  /** A statement up to, and not including, the paren that closes its column list. */
  function Opening(unlogged: bool, name: Name, gap: seq<byte>, inner: seq<byte>): (s: seq<byte>) {
    Prefix(unlogged) + (PrintName(name) + (gap + ([OPEN] + inner)))
  }

  lemma AfterName(unlogged: bool, name: Name, rest: seq<byte>)
    requires IsName(name) && Delimits(rest) && (rest == [] || rest[0] != DOT)
    requires IndexOf(rest, OPEN) == |rest| || MatchWalk(rest, IndexOf(rest, OPEN), TOP) == None
    ensures ParseCreateTable(Prefix(unlogged) + (PrintName(name) + rest)) == Err(MalformedCreateTable(Qualified(Named(name))))
  {
    hide TakeQualified, StripCreateTable, TrimStart, Prefix, PrintName, MatchWalk, Delimits, IsName;
    StripsCreate(unlogged, PrintName(name) + rest);
    NoBlanks();
    NameReads([], name, rest);
    assert [] + (PrintName(name) + rest) == PrintName(name) + rest;
  }

  lemma InsideName(unlogged: bool, name: Name, j: nat)
    requires IsName(name) && j <= |PrintName(name)|
    ensures ParseCreateTable(Prefix(unlogged) + PrintName(name)[..j]).Err?
  {
    hide TakeQualified, StripCreateTable, TrimStart, Prefix, PrintName, IsName;
    StripsCreate(unlogged, PrintName(name)[..j]);
    NameCut(name, j);
  }

  lemma InsideGap(unlogged: bool, name: Name, blanks: seq<byte>)
    requires IsName(name) && Blank(blanks)
    ensures ParseCreateTable(Prefix(unlogged) + (PrintName(name) + blanks)) == Err(MalformedCreateTable(Qualified(Named(name))))
  {
    IndexOfIs(blanks, OPEN, |blanks|);
    hide PrintName, IsName, Prefix, ParseCreateTable;
    AfterName(unlogged, name, blanks);
  }

  lemma InsideList(unlogged: bool, name: Name, gap: seq<byte>, inner: seq<byte>, j: nat)
    requires IsName(name) && Blank(gap) && Contained(inner, true) && j <= |inner|
    ensures ParseCreateTable(Prefix(unlogged) + (PrintName(name) + (gap + ([OPEN] + inner[..j]))))
      == Err(MalformedCreateTable(Qualified(Named(name))))
  {
    hide PrintName, IsName, Prefix, ParseCreateTable, HoldsFrom;
    var rest := gap + ([OPEN] + inner[..j]);
    IndexOfIs(rest, OPEN, |gap|);
    assert rest[|gap| + 1..] == inner[..j];
    MatchNone(rest, |gap| + 1, inner, j, 0, false);
    assert rest[|gap|] == OPEN;
    AfterName(unlogged, name, rest);
  }

  /**
   * Cut off anywhere after its keywords and before its closing paren, a statement is malformed;
   * after its name, the error says of which table.
   */
  lemma CutShortFails(unlogged: bool, name: Name, gap: seq<byte>, inner: seq<byte>, c: nat)
    requires IsName(name) && Blank(gap) && Contained(inner, true)
    requires |Prefix(unlogged)| <= c <= |Opening(unlogged, name, gap, inner)|
    ensures ParseCreateTable(Opening(unlogged, name, gap, inner)[..c]).Err?
    ensures c >= |Prefix(unlogged)| + |PrintName(name)| ==>
      ParseCreateTable(Opening(unlogged, name, gap, inner)[..c]) == Err(MalformedCreateTable(TableText(name)))
  {
    hide PrintName, IsName, Prefix, ParseCreateTable, Contained;
    var s := Opening(unlogged, name, gap, inner)[..c];
    var a, b := |Prefix(unlogged)|, |Prefix(unlogged)| + |PrintName(name)|;
    if c < b {
      assert s == Prefix(unlogged) + PrintName(name)[..c - a];
      InsideName(unlogged, name, c - a);
    } else if c <= b + |gap| {
      assert s == Prefix(unlogged) + (PrintName(name) + gap[..c - b]);
      InsideGap(unlogged, name, gap[..c - b]);
    } else {
      var j := c - b - |gap| - 1;
      assert s == Prefix(unlogged) + (PrintName(name) + (gap + ([OPEN] + inner[..j])));
      InsideList(unlogged, name, gap, inner, j);
    }
  }

  // ---------------------------------------------------------------- line by line

  /** Lines as the scanner puts them back together. */
  function Body(ls: seq<seq<byte>>): (s: seq<byte>)
    requires ls != []
  {
    Unlines(ls)[..|Unlines(ls)| - 1]
  }

  lemma UnlinesSnoc(ls: seq<seq<byte>>, l: seq<byte>)
    ensures Unlines(ls + [l]) == Unlines(ls) + l + [NL]
  {
    UnlinesAppend(ls, [l]);
    var one := [l];
    assert one[1..] == [] && Unlines(one) == l + [NL] + [];
  }

  lemma BodyEnds(ls: seq<seq<byte>>)
    requires ls != []
    ensures Unlines(ls) != [] && Unlines(ls) == Body(ls) + [NL]
  {
    assert ls == ls[..|ls| - 1] + [ls[|ls| - 1]];
    UnlinesSnoc(ls[..|ls| - 1], ls[|ls| - 1]);
  }

  lemma BodySnoc(ls: seq<seq<byte>>, l: seq<byte>)
    ensures Body(ls + [l]) == if ls == [] then l else Body(ls) + [NL] + l
  {
    UnlinesSnoc(ls, l);
    if ls != [] {
      BodyEnds(ls);
    }
  }

  lemma {:induction false} TrimEndSplit(s: seq<byte>)
    ensures Blank(s[|TrimEnd(s)|..])
    decreases |s|
  {
    if s != [] && IsWs(s[|s| - 1]) {
      var init := s[..|s| - 1];
      TrimEndSplit(init);
      var n := |TrimEnd(init)|;
      assert s[n..] == init[n..] + [s[|s| - 1]];
    }
  }

  /** What the scanner takes for the end of a statement. */
  lemma EndsStatementIff(line: seq<byte>)
    ensures EndsStatement(line) <==> ClosesStatement(line)
  {
    if EndsStatement(line) {
      TrimEndSplit(line);
      assert ClosesAtEnd(line, |TrimEnd(line)|);
    }
    if k: nat :| ClosesAtEnd(line, k) {
      assert line == line[..k] + line[k..];
      TrimEndBlanks(line[..k], line[k..]);
    }
  }

  /** Outside anything, where a statement can begin. */
  predicate Ready(st: State) {
    st.mode.Sql? && !st.inCreate && !st.skippingCreate
  }

  lemma CreateLine(st: State, unlogged: bool, line: seq<byte>, after: seq<byte>)
    requires Ready(st) && line == Prefix(unlogged) + after
    ensures SqlLine(st, line) == BeginCreate(st, line, after)
  {
    StripsCreate(unlogged, after);
    assert line[0] == Prefix(unlogged)[0] == 67;
    hide StripPrefixCi, BeginCreate, StripCreateTable, Prefix;
    ScanPrefix(line, Ascii("-- Dumped by pg_dump version "));
    ScanPrefix(line, Ascii("-- Dumped from database version "));
  }

  lemma ScanPrefix(line: seq<byte>, prefix: seq<byte>)
    requires prefix != [] && prefix[0] == 45 && line != [] && line[0] == 67
    ensures StripPrefixCi(line, prefix) == None
  {
    if |line| >= |prefix| {
      assert line[..|prefix|][0] == line[0];
    }
  }

  /**
   * The lines of a dump, of which the first `k + 1` read, with the carriage return before the
   * newline gone if there is one, as the lines of a text; of those only line `k` ends in `);`.
   */
  ghost predicate FirstEnd(raws: seq<seq<byte>>, ls: seq<seq<byte>>, k: nat) {
    && k < |raws| == |ls| && ClosesStatement(ls[k])
    && (forall j :: 0 <= j < k ==> !ClosesStatement(ls[j]))
    && (forall j :: 0 <= j <= k ==> StripCr(raws[j]) == ls[j])
  }

  lemma OneLine(st: State, raw: seq<byte>, line: seq<byte>)
    requires st.mode.Sql? && StripCr(raw) == line
    ensures Run(st, [raw]) == Outcome(SqlLine(st, line).state, Others(SqlLine(st, line).events), SqlLine(st, line).error)
  {
    RunOne(st, raw);
  }

  /** Until a line ends the statement, its text is collected. */
  lemma {:induction false} Collects(st: State, raws: seq<seq<byte>>, ls: seq<seq<byte>>, k: nat, j: nat, unlogged: bool, after: seq<byte>)
    requires Ready(st) && FirstEnd(raws, ls, k) && ls[0] == Prefix(unlogged) + after && !SchemaExcluded(st, after)
    requires 1 <= j <= k
    ensures Run(st, raws[..j]) == Outcome(st.(ddl := Body(ls[..j]), inCreate := true), [], None)
    decreases j
  {
    hide SqlLine, Run, SchemaExcluded, Prefix, EndsStatement, ClosesStatement, StripCr;
    assert Others([]) == [];
    EndsStatementIff(ls[j - 1]);
    if j == 1 {
      assert raws[..1] == [raws[0]] && ls[..1] == [ls[0]] == [] + [ls[0]];
      BodySnoc([], ls[0]);
      OneLine(st, raws[0], ls[0]);
      CreateLine(st, unlogged, ls[0], after);
    } else {
      Collects(st, raws, ls, k, j - 1, unlogged, after);
      assert raws[..j] == raws[..j - 1] + [raws[j - 1]] && ls[..j] == ls[..j - 1] + [ls[j - 1]];
      BodySnoc(ls[..j - 1], ls[j - 1]);
      RunAppend(st, raws[..j - 1], [raws[j - 1]]);
      var mid := st.(ddl := Body(ls[..j - 1]), inCreate := true);
      OneLine(mid, raws[j - 1], ls[j - 1]);
      Continues(mid, ls[j - 1]);
    }
  }

  lemma Continues(st: State, line: seq<byte>)
    requires st.mode.Sql? && !st.skippingCreate && st.inCreate && !EndsStatement(line)
    ensures SqlLine(st, line) == Step(st.(ddl := st.ddl + [NL] + line), [], None)
  {
  }

  lemma Ends(st: State, line: seq<byte>)
    requires st.mode.Sql? && !st.skippingCreate && st.inCreate && EndsStatement(line)
    ensures SqlLine(st, line) == Define(st.(ddl := [], inCreate := false), st.ddl + [NL] + line)
  {
  }

  /** The line that ends the statement has all of it parsed. */
  lemma EndsByDefining(st: State, raws: seq<seq<byte>>, ls: seq<seq<byte>>, k: nat, unlogged: bool, after: seq<byte>)
    requires Ready(st) && FirstEnd(raws, ls, k) && ls[0] == Prefix(unlogged) + after && !SchemaExcluded(st, after)
    ensures var s := Define(st.(ddl := []), Body(ls[..k + 1]));
      Run(st, raws[..k + 1]) == Outcome(s.state, Others(s.events), s.error)
  {
    hide SqlLine, Run, SchemaExcluded, Prefix, EndsStatement, ClosesStatement, Define, StripCr;
    EndsStatementIff(ls[k]);
    assert raws[..k + 1] == raws[..k] + [raws[k]] && ls[..k + 1] == ls[..k] + [ls[k]];
    BodySnoc(ls[..k], ls[k]);
    if k == 0 {
      assert raws[..1] == [raws[0]] && ls[..1] == [ls[0]];
      OneLine(st, raws[0], ls[0]);
      CreateLine(st, unlogged, ls[0], after);
    } else {
      Collects(st, raws, ls, k, k, unlogged, after);
      RunAppend(st, raws[..k], [raws[k]]);
      var mid := st.(ddl := Body(ls[..k]), inCreate := true);
      OneLine(mid, raws[k], ls[k]);
      Ends(mid, ls[k]);
      assert mid.(ddl := [], inCreate := false) == st.(ddl := []);
    }
  }

  // ---------------------------------------------------------------- the whole statement

  lemma {:induction false} UnlinesSplit(ls: seq<seq<byte>>, k: nat)
    requires k <= |ls|
    ensures Unlines(ls) == Unlines(ls[..k]) + Unlines(ls[k..])
  {
    UnlinesAppend(ls[..k], ls[k..]);
    assert ls[..k] + ls[k..] == ls;
  }

  /** A text with a newline, taken apart at some line end. */
  lemma SplitAtLine(text: seq<byte>, k: nat)
    requires k < |Lines(text + [NL])|
    ensures var ls := Lines(text + [NL]);
      && text + [NL] == Body(ls[..k + 1]) + [NL] + Unlines(ls[k + 1..])
      && (k + 1 == |ls| <==> Unlines(ls[k + 1..]) == [])
  {
    hide Lines, Tail, Body, Unlines;
    var ls := Lines(text + [NL]);
    SplitLossless(text + [NL]);
    AlignedTail(text + [NL]);
    assert Unlines(ls) + [] == Unlines(ls);
    UnlinesSplit(ls, k + 1);
    BodyEnds(ls[..k + 1]);
    if k + 1 < |ls| {
      BodyEnds(ls[k + 1..]);
    } else {
      NoLines(ls[k + 1..]);
    }
  }

  lemma NoLines(ls: seq<seq<byte>>)
    requires ls == []
    ensures Unlines(ls) == []
  {
  }

  /** The lines of a text, put back together up to some line, are the text up to there. */
  lemma BodyIsPrefix(text: seq<byte>, k: nat)
    requires k < |Lines(text + [NL])|
    ensures var ls := Lines(text + [NL]);
      var c := |Body(ls[..k + 1])|;
      && c <= |text| && Body(ls[..k + 1]) == text[..c]
      && (k + 1 == |ls| <==> c == |text|)
      && (c < |text| ==> text[c] == NL)
  {
    hide Lines, Body, Unlines;
    var ls := Lines(text + [NL]);
    SplitAtLine(text, k);
    var body, rest := Body(ls[..k + 1]), Unlines(ls[k + 1..]);
    assert |text| + 1 == |body| + 1 + |rest|;
    assert (text + [NL])[|body|] == NL;
    assert body == (text + [NL])[..|body|] == text[..|body|];
  }

  lemma PrefixIsOneLine(unlogged: bool)
    ensures NoNewline(Prefix(unlogged))
  {
  }

  /** What a table definition does to the scanner. */
  function Defined(st: State, def: TableDef): (o: Outcome) {
    Outcome(st.(ddl := [], tables := st.tables[Qualified(def.name) := def]), [Other(Table(def))], None)
  }

  lemma DefineOk(st: State, ddl: seq<byte>, def: TableDef)
    requires ParseCreateTable(ddl) == Ok(def)
    ensures var s := Define(st.(ddl := []), ddl);
      Outcome(s.state, Others(s.events), s.error) == Defined(st, def)
  {
    hide ParseCreateTable;
    assert Others([Table(def)]) == [Other(Table(def))];
  }

  lemma DefineErr(st: State, ddl: seq<byte>)
    requires ParseCreateTable(ddl).Err?
    ensures var s := Define(st.(ddl := []), ddl);
      s.events == [] && s.error.Some? && s.error.value.MalformedCreateTable?
  {
    hide ColumnsOf, MatchWalk, TakeQualified, SplitTop;
  }

  lemma BodyLonger(ls: seq<seq<byte>>, k: nat)
    requires k < |ls|
    ensures |ls[0]| <= |Body(ls[..k + 1])|
  {
    var some := ls[..k + 1];
    BodyEnds(some);
    assert Unlines(some) == some[0] + [NL] + Unlines(some[1..]);
  }

  /** Where the column list of a printed statement closes. */
  function ClosesAt(unlogged: bool, name: Name, gap: seq<byte>, ps: seq<Spaced>): (at: nat) {
    |Opening(unlogged, name, gap, Joined(PrintAll(ps)))|
  }

  lemma PrintedAs(unlogged: bool, name: Name, gap: seq<byte>, ps: seq<Spaced>, trailing: seq<byte>)
    ensures var text := PrintCreate(unlogged, name, gap, ps, trailing);
      var inner := Joined(PrintAll(ps));
      && text == Opening(unlogged, name, gap, inner) + ([CLOSE] + trailing)
      && text == Prefix(unlogged) + (PrintName(name) + (gap + ([OPEN] + (inner + ([CLOSE] + trailing)))))
  {
  }

  /** A statement up to somewhere in its trailing clauses is a statement. */
  lemma ShorterTrailing(unlogged: bool, name: Name, gap: seq<byte>, ps: seq<Spaced>, trailing: seq<byte>, c: nat)
    requires ClosesAt(unlogged, name, gap, ps) < c <= |PrintCreate(unlogged, name, gap, ps, trailing)|
    ensures var t := c - ClosesAt(unlogged, name, gap, ps) - 1;
      && t <= |trailing|
      && PrintCreate(unlogged, name, gap, ps, trailing)[..c] == PrintCreate(unlogged, name, gap, ps, trailing[..t])
  {
    hide Opening, Joined, PrintAll, PrintCreate;
    var t := c - ClosesAt(unlogged, name, gap, ps) - 1;
    PrintedAs(unlogged, name, gap, ps, trailing);
    PrintedAs(unlogged, name, gap, ps, trailing[..t]);
  }

  /** What a statement parses as, up to somewhere. */
  lemma ParsedUpTo(unlogged: bool, name: Name, gap: seq<byte>, ps: seq<Spaced>, trailing: seq<byte>, c: nat)
    requires IsName(name) && Blank(gap) && forall i :: 0 <= i < |ps| ==> IsSpaced(ps[i])
    requires |Prefix(unlogged)| <= c <= |PrintCreate(unlogged, name, gap, ps, trailing)|
    ensures var r := ParseCreateTable(PrintCreate(unlogged, name, gap, ps, trailing)[..c]);
      if ClosesAt(unlogged, name, gap, ps) < c then r == Ok(TableDef(Named(name), ColumnsDefined(ps))) else r.Err?
  {
    hide Opening, PrintCreate, PrintAll, Joined, Prefix, PrintName, IsName, Blank, IsSpaced, ParseCreateTable, ColumnsDefined;
    if ClosesAt(unlogged, name, gap, ps) < c {
      ShorterTrailing(unlogged, name, gap, ps, trailing, c);
      CreateRoundTrip(unlogged, name, gap, ps, trailing[..c - ClosesAt(unlogged, name, gap, ps) - 1]);
    } else {
      var inner := Joined(PrintAll(ps));
      hide Contained, SplitTop, ColumnsOf;
      ListReads(ps);
      PrintedAs(unlogged, name, gap, ps, trailing);
      CutShortFails(unlogged, name, gap, inner, c);
      assert PrintCreate(unlogged, name, gap, ps, trailing)[..c] == Opening(unlogged, name, gap, inner)[..c];
    }
  }

  lemma FirstEndIs(raws: seq<seq<byte>>, ls: seq<seq<byte>>, k: nat)
    requires FirstEnd(raws, ls, k)
    ensures k < |raws| == |ls|
  {
  }

  // ---------------------------------------------------------------- schemas left out

  /** The table is in a schema that is left out, and its name is all on one line. */
  predicate LeftOut(excluded: set<seq<byte>>, name: Name) {
    name.schema.Some? && name.schema.value.name in excluded && NoNewline(PrintName(name))
  }

  /** A quoted name cut at a newline inside it is not terminated. */
  lemma {:induction false} QuotedBroken(name: seq<byte>, j: nat)
    requires j <= |Doubled(name)| && (Doubled(name) + [QUOTE])[j] == NL
    ensures QuotedRest((Doubled(name) + [QUOTE])[..j]) == None
    decreases |name|
  {
    if name != [] {
      var whole := Doubled(name) + [QUOTE];
      var head := if name[0] == QUOTE then [QUOTE, QUOTE] else [name[0]];
      var tail := Doubled(name[1..]) + [QUOTE];
      assert whole == head + tail;
      if j >= |head| {
        assert whole[..j] == head + tail[..j - |head|];
        QuotedBroken(name[1..], j - |head|);
        OneMore(name[0], tail[..j - |head|]);
      } else {
        assert whole[..j] == [];
      }
    }
  }

  /** Only a quoted identifier has a newline in it, and cut there it is none. */
  lemma IdentBroken(id: Ident, j: nat)
    requires IsIdent(id) && j < |PrintIdent(id)| && PrintIdent(id)[j] == NL
    ensures TakeIdentifier(PrintIdent(id)[..j]) == None
  {
    var s := PrintIdent(id)[..j];
    assert id.quoted;
    assert j > 0 && s[0] == QUOTE && TrimStart(s) == s;
    assert s[1..] == (Doubled(id.name) + [QUOTE])[..j - 1];
    QuotedBroken(id.name, j - 1);
  }

  lemma NameBroken(n: Name, j: nat)
    requires IsName(n) && j < |PrintName(n)| && PrintName(n)[j] == NL
    ensures TakeQualified(PrintName(n)[..j]) == None
  {
    hide TakeIdentifier, IsIdent, PrintIdent;
    var s := PrintName(n)[..j];
    if n.schema.None? {
      assert PrintName(n) == PrintIdent(n.table);
      IdentBroken(n.table, j);
    } else {
      var first, second := PrintIdent(n.schema.value), PrintIdent(n.table);
      if j < |first| {
        assert s == first[..j];
        IdentBroken(n.schema.value, j);
      } else {
        var m := j - |first| - 1;
        assert PrintName(n)[|first|] == DOT;
        assert second[m] == PrintName(n)[j];
        IdentBroken(n.table, m);
        var rest := [DOT] + second[..m];
        assert s == [] + (first + rest) && rest[1..] == second[..m];
        NoBlanks();
        IdentReads([], n.schema.value, rest);
      }
    }
  }

  /** What stands on the first line after the keywords. */
  lemma FirstLineRest(prefix: seq<byte>, body: seq<byte>) returns (m: nat)
    requires NoNewline(prefix)
    ensures m <= |body| && NoNewline(body[..m]) && (m < |body| ==> body[m] == NL)
    ensures var ls := Lines(prefix + body + [NL]); ls != [] && ls[0] == prefix + body[..m]
  {
    m := IndexOf(body, NL);
    var s := prefix + body + [NL];
    assert forall k :: 0 <= k < |prefix| ==> s[k] == prefix[k];
    assert forall k :: 0 <= k < |body| ==> s[|prefix| + k] == body[k];
    IndexOfIs(s, NL, |prefix| + m);
    LinesFirst(s);
    assert s[..|prefix| + m] == prefix + body[..m];
  }

  lemma NameExcluded(st: State, name: Name, rest: seq<byte>)
    requires IsName(name) && Delimits(rest) && (rest == [] || rest[0] != DOT)
    ensures SchemaExcluded(st, PrintName(name) + rest) <==> name.schema.Some? && name.schema.value.name in st.excluded
  {
    hide TakeQualified, PrintName, IsName;
    NoBlanks();
    NameReads([], name, rest);
    assert [] + (PrintName(name) + rest) == PrintName(name) + rest;
  }

  /** Exactly the tables of schemas that are left out are passed over. */
  lemma ExcludedIff(st: State, unlogged: bool, name: Name, rest: seq<byte>)
    requires IsName(name) && Delimits(rest) && (rest == [] || rest[0] != DOT)
    ensures var ls := Lines(Prefix(unlogged) + (PrintName(name) + rest) + [NL]);
      && ls != [] && |Prefix(unlogged)| <= |ls[0]| && ls[0] == Prefix(unlogged) + ls[0][|Prefix(unlogged)|..]
      && (SchemaExcluded(st, ls[0][|Prefix(unlogged)|..]) <==> LeftOut(st.excluded, name))
  {
    hide TakeQualified, PrintName, IsName, Prefix, Lines, SchemaExcluded;
    PrefixIsOneLine(unlogged);
    var printed := PrintName(name);
    var body := printed + rest;
    var m := FirstLineRest(Prefix(unlogged), body);
    var line := Prefix(unlogged) + body[..m];
    assert line[|Prefix(unlogged)|..] == body[..m];
    if m < |printed| {
      assert body[..m] == printed[..m] && printed[m] == NL;
      NameBroken(name, m);
      NotExcluded(st, body[..m]);
    } else {
      assert body[..m] == printed + rest[..m - |printed|];
      assert NoNewline(printed) by {
        assert forall k :: 0 <= k < |printed| ==> body[..m][k] == printed[k];
      }
      NameExcluded(st, name, rest[..m - |printed|]);
    }
  }

  lemma NotExcluded(st: State, after: seq<byte>)
    requires TakeQualified(after) == None
    ensures !SchemaExcluded(st, after)
  {
  }

  /** A printed definition's first line, and whether it is passed over. */
  lemma DefinitionExcluded(st: State, unlogged: bool, name: Name, gap: seq<byte>, ps: seq<Spaced>, trailing: seq<byte>)
    requires IsName(name) && Blank(gap)
    ensures var ls := Lines(PrintCreate(unlogged, name, gap, ps, trailing) + [NL]);
      && ls != [] && |Prefix(unlogged)| <= |ls[0]| && ls[0] == Prefix(unlogged) + ls[0][|Prefix(unlogged)|..]
      && (SchemaExcluded(st, ls[0][|Prefix(unlogged)|..]) <==> LeftOut(st.excluded, name))
  {
    var rest := gap + ([OPEN] + (Joined(PrintAll(ps)) + ([CLOSE] + trailing)));
    assert Delimits(rest) && rest[0] != DOT;
    assert PrintCreate(unlogged, name, gap, ps, trailing) == Prefix(unlogged) + (PrintName(name) + rest);
    hide PrintCreate, PrintName, IsName, Prefix, Lines, SchemaExcluded, LeftOut, Joined, PrintAll;
    ExcludedIff(st, unlogged, name, rest);
  }

  // ---------------------------------------------------------------- line by line, the whole statement

  /**
   * What the scanner makes of a printed statement fed line by line, under either line end. At
   * the first line that ends in `);` it has exactly the printed table if the column list is
   * closed by then, and otherwise gives up the dump as malformed.
   */
  lemma StatementScanned(st: State, raws: seq<seq<byte>>, unlogged: bool, name: Name, gap: seq<byte>, ps: seq<Spaced>,
                         trailing: seq<byte>, k: nat)
    requires Ready(st) && IsName(name) && Blank(gap) && forall i :: 0 <= i < |ps| ==> IsSpaced(ps[i])
    requires var ls := Lines(PrintCreate(unlogged, name, gap, ps, trailing) + [NL]);
      FirstEnd(raws, ls, k) && !LeftOut(st.excluded, name)
    ensures var ls := Lines(PrintCreate(unlogged, name, gap, ps, trailing) + [NL]);
      var o := Run(st, raws[..k + 1]);
      if ClosesAt(unlogged, name, gap, ps) < |Body(ls[..k + 1])|
      then o == Defined(st, TableDef(Named(name), ColumnsDefined(ps)))
      else o.items == [] && o.error.Some? && o.error.value.MalformedCreateTable?
  {
    hide Run, Define, SchemaExcluded, LeftOut, Prefix, PrintCreate, IsName, Blank, IsSpaced, Lines, Body, ClosesAt, FirstEnd, Ready;
    hide ParseCreateTable, ColumnsDefined, Named, Defined;
    var text := PrintCreate(unlogged, name, gap, ps, trailing);
    var ls := Lines(text + [NL]);
    FirstEndIs(raws, ls, k);
    DefinitionExcluded(st, unlogged, name, gap, ps, trailing);
    EndsByDefining(st, raws, ls, k, unlogged, ls[0][|Prefix(unlogged)|..]);
    BodyIsPrefix(text, k);
    BodyLonger(ls, k);
    var c := |Body(ls[..k + 1])|;
    ParsedUpTo(unlogged, name, gap, ps, trailing, c);
    if ClosesAt(unlogged, name, gap, ps) < c {
      DefineOk(st, text[..c], TableDef(Named(name), ColumnsDefined(ps)));
    } else {
      DefineErr(st, text[..c]);
    }
  }

  /**
   * If nothing after the column list starts a new line, a statement that ends in `);` yields
   * exactly its table if and only if no line before its last ends so.
   */
  lemma ScannedIff(st: State, raws: seq<seq<byte>>, unlogged: bool, name: Name, gap: seq<byte>, ps: seq<Spaced>,
                   trailing: seq<byte>, k: nat)
    requires Ready(st) && IsName(name) && Blank(gap) && forall i :: 0 <= i < |ps| ==> IsSpaced(ps[i])
    requires NoNewline(trailing)
    requires var ls := Lines(PrintCreate(unlogged, name, gap, ps, trailing) + [NL]);
      FirstEnd(raws, ls, k) && !LeftOut(st.excluded, name)
    ensures Run(st, raws) == Defined(st, TableDef(Named(name), ColumnsDefined(ps))) <==> k + 1 == |raws|
  {
    hide Run, SchemaExcluded, LeftOut, Prefix, Opening, PrintCreate, IsName, IsSpaced, Lines, Body, FirstEnd, ColumnsDefined, Named, Ready, Blank;
    var text := PrintCreate(unlogged, name, gap, ps, trailing);
    var ls := Lines(text + [NL]);
    FirstEndIs(raws, ls, k);
    StatementScanned(st, raws, unlogged, name, gap, ps, trailing, k);
    BodyIsPrefix(text, k);
    ClosedInLastLine(unlogged, name, gap, ps, trailing, |Body(ls[..k + 1])|);
    if k + 1 == |raws| {
      assert raws[..k + 1] == raws;
    } else {
      assert raws == raws[..k + 1] + raws[k + 1..];
      RunAppend(st, raws[..k + 1], raws[k + 1..]);
    }
  }

  /** Without a newline in it, no line ends inside the trailing clause. */
  lemma ClosedInLastLine(unlogged: bool, name: Name, gap: seq<byte>, ps: seq<Spaced>, trailing: seq<byte>, c: nat)
    requires NoNewline(trailing)
    requires var text := PrintCreate(unlogged, name, gap, ps, trailing); c <= |text| && (c < |text| ==> text[c] == NL)
    ensures ClosesAt(unlogged, name, gap, ps) < c <==> c == |PrintCreate(unlogged, name, gap, ps, trailing)|
  {
    hide Opening, PrintCreate, Joined, PrintAll;
    PrintedAs(unlogged, name, gap, ps, trailing);
    var text, at := PrintCreate(unlogged, name, gap, ps, trailing), ClosesAt(unlogged, name, gap, ps);
    assert forall i :: at < i < |text| ==> text[i] == trailing[i - at - 1];
  }
}
