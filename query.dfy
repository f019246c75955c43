/** Construction of the indexer query text: `build_query` and the `QUERY`
    template of scripts/get_gas_cost.py.  Strings are `seq<char>`; Python's
    `str.replace`, `", ".join` and `str` on a non-negative int are written
    out as functions below. */
module Query {
  import opened Wrappers

  /** The two command-line filters; `None` is an option that was not given. */
  datatype Filter = Filter(sender: Option<string>, entryFunction: Option<string>)

  // ---------------------------------------------------------------------
  // The template
  // ---------------------------------------------------------------------

  const WHERE_PLACEHOLDER: string := "{where}"
  const OFFSET_PLACEHOLDER: string := "{offset}"
  const LIMIT_PLACEHOLDER: string := "{limit}"

  /** The fixed text around the three placeholders of the template, HEAD and
      TAIL cut at their braces. */
  const HEAD: string := "\nquery MyQuery " + "{\n" + "  user_transactions(\n    where: " + "{ "
  const AFTER_WHERE: string := " }\n    offset: "
  const AFTER_OFFSET: string := "\n    limit: "
  const TAIL: string := "\n  ) " + "{\n" + "    version\n  }\n}\n"

  /** The GraphQL template, character for character:

        query MyQuery {
          user_transactions(
            where: { {where} }
            offset: {offset}
            limit: {limit}
          ) {
            version
          }
        }

      with a newline before and after, written as its fixed pieces and its
      placeholders. */
  const QUERY_TEMPLATE: string :=
    HEAD + WHERE_PLACEHOLDER + AFTER_WHERE + OFFSET_PLACEHOLDER
    + AFTER_OFFSET + LIMIT_PLACEHOLDER + TAIL

  // ---------------------------------------------------------------------
  // Python string operations
  // ---------------------------------------------------------------------

  /** `s.replace(pat, rep)`: every non-overlapping occurrence of `pat`,
      scanning left to right, is replaced by `rep`. */
  function Replace(s: string, pat: string, rep: string): (r: string)
    requires |pat| > 0
    ensures rep == pat ==> r == s
    ensures |rep| == |pat| ==> |r| == |s|
    decreases |s|
  {
    if |s| < |pat| then s
    else if s[..|pat|] == pat then rep + Replace(s[|pat|..], pat, rep)
    else [s[0]] + Replace(s[1..], pat, rep)
  }

  /** `sep.join(parts)`: the parts in order, `sep` between neighbours. */
  function Join(sep: string, parts: seq<string>): (r: string)
    ensures |parts| > 0 ==> parts[0] <= r
    ensures |parts| > 0 ==> |parts[|parts| - 1]| <= |r|
                            && r[|r| - |parts[|parts| - 1]|..] == parts[|parts| - 1]
    decreases |parts|
  {
    if |parts| == 0 then ""
    else if |parts| == 1 then parts[0]
    else parts[0] + sep + Join(sep, parts[1..])
  }

  function DigitChar(d: nat): char
    requires d < 10
  {
    (48 + d) as char
  }

  predicate IsDecimal(s: string) {
    forall i :: 0 <= i < |s| ==> '0' <= s[i] <= '9'
  }

  /** The value of a string of decimal digits (the inverse of `DecimalString`). */
  function DecimalValue(s: string): nat
    requires IsDecimal(s)
    decreases |s|
  {
    if |s| == 0 then 0
    else DecimalValue(s[..|s| - 1]) * 10 + (s[|s| - 1] as int - 48)
  }

  /** `str(n)` for a non-negative int: its decimal digits, most significant
      first, with no leading zero. */
  function DecimalString(n: nat): (s: string)
    ensures |s| >= 1 && IsDecimal(s)
    decreases n
  {
    if n < 10 then [DigitChar(n)] else DecimalString(n / 10) + [DigitChar(n % 10)]
  }

  lemma {:induction false} DecimalRoundTrip(n: nat)
    ensures DecimalValue(DecimalString(n)) == n
    ensures DecimalString(n)[0] == '0' <==> n == 0
    decreases n
  {
    if n >= 10 {
      var s := DecimalString(n);
      DecimalRoundTrip(n / 10);
      assert s[..|s| - 1] == DecimalString(n / 10);
    }
  }

  // ---------------------------------------------------------------------
  // build_query
  // ---------------------------------------------------------------------

  /** Python truthiness of an optional string: given and non-empty. */
  predicate Truthy(o: Option<string>) {
    o.Some? && o.value != ""
  }

  /** One equality clause of the `where` object, `field: {_eq: "value"}`;
      the value is interpolated without any escaping. */
  function Clause(field: string, value: string): string {
    field + ": {_eq: \"" + value + "\"}"
  }

  function SenderClause(address: string): string {
    Clause("sender", address)
  }

  function EntryFunctionClause(id: string): string {
    Clause("entry_function_id_str", id)
  }

  /** The clauses `build_query` collects, in the order it appends them. */
  function FilterClauses(filter: Filter): seq<string> {
    (if Truthy(filter.sender) then [SenderClause(filter.sender.value)] else [])
    + (if Truthy(filter.entryFunction) then [EntryFunctionClause(filter.entryFunction.value)] else [])
  }

  function WhereString(filter: Filter): string {
    Join(", ", FilterClauses(filter))
  }

  /** The template after the three replacements, in the script's order. */
  function Fill(whereStr: string, offsetStr: string, limitStr: string): string {
    Replace(Replace(Replace(QUERY_TEMPLATE, WHERE_PLACEHOLDER, whereStr),
                    OFFSET_PLACEHOLDER, offsetStr),
            LIMIT_PLACEHOLDER, limitStr)
  }

  /** The text `build_query(sender, entry_function_id_str, offset, limit)` returns. */
  function QueryText(filter: Filter, offset: nat, limit: nat): string {
    Fill(WhereString(filter), DecimalString(offset), DecimalString(limit))
  }

  /** `build_query`: append the clause of each truthy filter to a list, join
      the list with ", ", then fill the template. */
  method BuildQuery(filter: Filter, offset: nat, limit: nat) returns (query: string)
    ensures query == QueryText(filter, offset, limit)
    ensures FreeOfBraces(filter) ==>
              query == HEAD + WhereString(filter) + AFTER_WHERE + DecimalString(offset)
                       + AFTER_OFFSET + DecimalString(limit) + TAIL
  {
    var clauses: seq<string> := [];
    if Truthy(filter.sender) {
      clauses := clauses + [SenderClause(filter.sender.value)];
    }
    if Truthy(filter.entryFunction) {
      clauses := clauses + [EntryFunctionClause(filter.entryFunction.value)];
    }
    var whereStr := Join(", ", clauses);
    query := Replace(QUERY_TEMPLATE, WHERE_PLACEHOLDER, whereStr);
    query := Replace(query, OFFSET_PLACEHOLDER, DecimalString(offset));
    query := Replace(query, LIMIT_PLACEHOLDER, DecimalString(limit));
    if FreeOfBraces(filter) {
      QueryTextSplices(filter, offset, limit);
    }
  }

  // ---------------------------------------------------------------------
  // The where-string
  // ---------------------------------------------------------------------

  /** One clause per truthy filter, sender first, separated by ", " only when
      there are two; an absent and an empty filter both contribute nothing. */
  lemma WhereStringCases(filter: Filter)
    ensures !Truthy(filter.sender) && !Truthy(filter.entryFunction) ==>
              WhereString(filter) == ""
    ensures Truthy(filter.sender) && !Truthy(filter.entryFunction) ==>
              WhereString(filter) == SenderClause(filter.sender.value)
    ensures !Truthy(filter.sender) && Truthy(filter.entryFunction) ==>
              WhereString(filter) == EntryFunctionClause(filter.entryFunction.value)
    ensures Truthy(filter.sender) && Truthy(filter.entryFunction) ==>
              WhereString(filter) == SenderClause(filter.sender.value) + ", "
                                     + EntryFunctionClause(filter.entryFunction.value)
  {
    var clauses := FilterClauses(filter);
    if Truthy(filter.sender) && Truthy(filter.entryFunction) {
      assert clauses
          == [SenderClause(filter.sender.value), EntryFunctionClause(filter.entryFunction.value)];
      assert clauses[1..] == [EntryFunctionClause(filter.entryFunction.value)];
      assert Join(", ", clauses[1..]) == EntryFunctionClause(filter.entryFunction.value);
    }
  }

  /** A sender given as the empty string builds the same query as a sender
      not given at all; with the entry function also empty the `where`
      object is empty. */
  lemma EmptyFilterAddsNoClause(filter: Filter, offset: nat, limit: nat)
    requires filter.sender == Some("")
    ensures QueryText(filter, offset, limit)
         == QueryText(Filter(None, filter.entryFunction), offset, limit)
    ensures filter.entryFunction == Some("") ==> WhereString(filter) == ""
  {
    assert FilterClauses(filter) == FilterClauses(Filter(None, filter.entryFunction));
  }

  // ---------------------------------------------------------------------
  // What the three replacements produce
  // ---------------------------------------------------------------------

  /** No occurrence of `pat` can start inside `s`, whatever follows `s`:
      every character of `s` equal to `pat[0]` is followed, within `s`, by
      one other than `pat[1]`. */
  predicate Inert(s: string, pat: string)
    requires |pat| >= 2
  {
    forall i :: 0 <= i < |s| && s[i] == pat[0] ==> i + 1 < |s| && s[i + 1] != pat[1]
  }

  lemma InertAppend(a: string, b: string, pat: string)
    requires |pat| >= 2 && Inert(a, pat) && Inert(b, pat)
    ensures Inert(a + b, pat)
  {
    var s := a + b;
    forall i | 0 <= i < |s| && s[i] == pat[0]
      ensures i + 1 < |s| && s[i + 1] != pat[1]
    {
      if i >= |a| {
        assert b[i - |a|] == s[i];
      }
    }
  }

  lemma InertWithout(s: string, pat: string)
    requires |pat| >= 2 && pat[0] !in s
    ensures Inert(s, pat)
  {
  }

  lemma InertTail(a: string, pat: string)
    requires |pat| >= 2 && |a| > 0 && Inert(a, pat)
    ensures Inert(a[1..], pat)
  {
    forall i | 0 <= i < |a[1..]| && a[1..][i] == pat[0]
      ensures i + 1 < |a[1..]| && a[1..][i + 1] != pat[1]
    {
      assert a[i + 1] == pat[0];
    }
  }

  /** Replacing in `a + b` leaves an inert prefix `a` as it is. */
  lemma {:induction false} ReplaceSkipsInert(a: string, b: string, pat: string, rep: string)
    requires |pat| >= 2 && Inert(a, pat)
    ensures Replace(a + b, pat, rep) == a + Replace(b, pat, rep)
    decreases |a|
  {
    var s := a + b;
    if |a| == 0 {
      assert s == b;
    } else if |s| < |pat| {
      ReplaceShort(b, pat, rep);
      ReplaceShort(s, pat, rep);
    } else {
      InertTail(a, pat);
      ReplaceSkipsInert(a[1..], b, pat, rep);
      assert s[1..] == a[1..] + b;
      assert s[..|pat|] != pat by {
        if a[0] == pat[0] {
          assert s[..|pat|][1] == s[1] == a[1];
        }
      }
      calc {
        Replace(s, pat, rep);
        [s[0]] + Replace(s[1..], pat, rep);
        [a[0]] + (a[1..] + Replace(b, pat, rep));
        { assert [a[0]] + a[1..] == a; }
        a + Replace(b, pat, rep);
      }
    }
  }

  lemma ReplaceShort(s: string, pat: string, rep: string)
    requires 0 < |pat| && |s| < |pat|
    ensures Replace(s, pat, rep) == s
  {
  }

  lemma ReplaceInert(s: string, pat: string, rep: string)
    requires |pat| >= 2 && Inert(s, pat)
    ensures Replace(s, pat, rep) == s
  {
    ReplaceSkipsInert(s, [], pat, rep);
    assert s + [] == s;
  }

  lemma ReplaceAtMatch(b: string, pat: string, rep: string)
    requires |pat| > 0
    ensures Replace(pat + b, pat, rep) == rep + Replace(b, pat, rep)
  {
    var s := pat + b;
    assert s[..|pat|] == pat;
    assert s[|pat|..] == b;
  }

  /** `Replace` over `a + pat + b` with an inert `a`: the first occurrence is
      the one shown. */
  lemma ReplaceFirst(a: string, b: string, pat: string, rep: string)
    requires |pat| >= 2 && Inert(a, pat)
    ensures Replace(a + pat + b, pat, rep) == a + rep + Replace(b, pat, rep)
  {
    assert a + pat + b == a + (pat + b);
    ReplaceSkipsInert(a, pat + b, pat, rep);
    ReplaceAtMatch(b, pat, rep);
  }

  /** A placeholder's first two characters: a brace, then a letter. */
  predicate IsPlaceholder(pat: string) {
    |pat| >= 2 && pat[0] == '{' && pat[1] != '{' && pat[1] != '\n' && pat[1] != ' '
             && pat[1] != '_'
  }

  lemma PlaceholdersArePlaceholders()
    ensures IsPlaceholder(WHERE_PLACEHOLDER) && IsPlaceholder(OFFSET_PLACEHOLDER)
    ensures IsPlaceholder(LIMIT_PLACEHOLDER)
    ensures Inert(OFFSET_PLACEHOLDER, WHERE_PLACEHOLDER)
    ensures Inert(LIMIT_PLACEHOLDER, WHERE_PLACEHOLDER)
    ensures Inert(LIMIT_PLACEHOLDER, OFFSET_PLACEHOLDER)
  {
    assert '{' !in OFFSET_PLACEHOLDER[1..] && '{' !in LIMIT_PLACEHOLDER[1..];
    BraceWordInert(OFFSET_PLACEHOLDER, WHERE_PLACEHOLDER);
    BraceWordInert(LIMIT_PLACEHOLDER, WHERE_PLACEHOLDER);
    BraceWordInert(LIMIT_PLACEHOLDER, OFFSET_PLACEHOLDER);
  }

  /** A word that opens with a brace and holds no other, against a
      placeholder with a different second character. */
  lemma BraceWordInert(p: string, pat: string)
    requires |p| >= 2 && |pat| >= 2 && p[0] == pat[0] && p[1] != pat[1] && pat[0] !in p[1..]
    ensures Inert(p, pat)
  {
    forall i | 0 < i < |p| ensures p[i] != pat[0] {
      assert p[i] == p[1..][i - 1];
    }
  }

  /** A brace followed by a character that is not the placeholder's second. */
  lemma BraceThenInert(c: char, pat: string)
    requires |pat| >= 2 && pat[0] == '{' && c != '{' && c != pat[1]
    ensures Inert(['{', c], pat)
  {
  }

  /** The fixed pieces of the template contain no placeholder. */
  lemma PiecesInert(pat: string)
    requires IsPlaceholder(pat)
    ensures Inert(HEAD, pat) && Inert(AFTER_WHERE, pat) && Inert(AFTER_OFFSET, pat)
    ensures Inert(TAIL, pat)
  {
    HeadInert(pat);
    TailInert(pat);
    MiddleBraceFree();
    InertWithout(AFTER_WHERE, pat);
    InertWithout(AFTER_OFFSET, pat);
  }

  /** The brace-free runs of HEAD and TAIL. */
  lemma HeadBraceFree()
    ensures '{' !in "\nquery MyQuery " && '{' !in "  user_transactions(\n    where: "
  {
  }

  lemma TailBraceFree()
    ensures '{' !in "\n  ) " && '{' !in "    version\n  }\n}\n"
  {
  }

  lemma MiddleBraceFree()
    ensures '{' !in AFTER_WHERE && '{' !in AFTER_OFFSET
  {
  }

  lemma HeadInert(pat: string)
    requires IsPlaceholder(pat)
    ensures Inert(HEAD, pat)
  {
    HeadBraceFree();
    var h0, h1, h2, h3 := "\nquery MyQuery ", "{\n", "  user_transactions(\n    where: ", "{ ";
    BraceThenInert('\n', pat);
    BraceThenInert(' ', pat);
    InertWithout(h0, pat);
    InertWithout(h2, pat);
    InertAppend(h0, h1, pat);
    InertAppend(h0 + h1, h2, pat);
    InertAppend(h0 + h1 + h2, h3, pat);
  }

  lemma TailInert(pat: string)
    requires IsPlaceholder(pat)
    ensures Inert(TAIL, pat)
  {
    TailBraceFree();
    var t0, t1, t2 := "\n  ) ", "{\n", "    version\n  }\n}\n";
    BraceThenInert('\n', pat);
    InertWithout(t0, pat);
    InertWithout(t2, pat);
    InertAppend(t0, t1, pat);
    InertAppend(t0 + t1, t2, pat);
  }

  /** Replacing a placeholder that occurs once, between two inert texts. */
  lemma ReplaceInSlot(front: string, back: string, pat: string, rep: string)
    requires |pat| >= 2 && Inert(front, pat) && Inert(back, pat)
    ensures Replace(front + pat + back, pat, rep) == front + rep + back
  {
    ReplaceFirst(front, back, pat, rep);
    ReplaceInert(back, pat, rep);
  }

  /** The first replacement, `{where}`, over `head pw afterW po afterO pl tail`. */
  lemma SpliceWhere(head: string, afterW: string, afterO: string, tail: string,
                    pw: string, po: string, pl: string, w: string)
    requires |pw| >= 2 && Inert(head, pw) && Inert(afterW, pw) && Inert(po, pw)
    requires Inert(afterO, pw) && Inert(pl, pw) && Inert(tail, pw)
    ensures Replace(head + pw + afterW + po + afterO + pl + tail, pw, w)
         == head + w + afterW + po + afterO + pl + tail
  {
    var back := afterW + po + afterO + pl + tail;
    InertAppend(afterW, po, pw);
    InertAppend(afterW + po, afterO, pw);
    InertAppend(afterW + po + afterO, pl, pw);
    InertAppend(afterW + po + afterO + pl, tail, pw);
    assert head + pw + afterW + po + afterO + pl + tail == head + pw + back;
    ReplaceInSlot(head, back, pw, w);
    assert head + w + back == head + w + afterW + po + afterO + pl + tail;
  }

  /** The second replacement, `{offset}`. */
  lemma SpliceOffset(head: string, w: string, afterW: string, afterO: string, tail: string,
                     po: string, pl: string, o: string)
    requires |po| >= 2 && Inert(head, po) && Inert(w, po) && Inert(afterW, po)
    requires Inert(afterO, po) && Inert(pl, po) && Inert(tail, po)
    ensures Replace(head + w + afterW + po + afterO + pl + tail, po, o)
         == head + w + afterW + o + afterO + pl + tail
  {
    var front := head + w + afterW;
    var back := afterO + pl + tail;
    InertAppend(head, w, po);
    InertAppend(head + w, afterW, po);
    InertAppend(afterO, pl, po);
    InertAppend(afterO + pl, tail, po);
    assert head + w + afterW + po + afterO + pl + tail == front + po + back;
    ReplaceInSlot(front, back, po, o);
    assert front + o + back == head + w + afterW + o + afterO + pl + tail;
  }

  /** The third replacement, `{limit}`. */
  lemma SpliceLimit(head: string, w: string, afterW: string, o: string, afterO: string,
                    tail: string, pl: string, l: string)
    requires |pl| >= 2 && Inert(head, pl) && Inert(w, pl) && Inert(afterW, pl)
    requires Inert(o, pl) && Inert(afterO, pl) && Inert(tail, pl)
    ensures Replace(head + w + afterW + o + afterO + pl + tail, pl, l)
         == head + w + afterW + o + afterO + l + tail
  {
    var front := head + w + afterW + o + afterO;
    InertAppend(head, w, pl);
    InertAppend(head + w, afterW, pl);
    InertAppend(head + w + afterW, o, pl);
    InertAppend(head + w + afterW + o, afterO, pl);
    ReplaceInSlot(front, tail, pl, l);
  }

  /** The three replacements splice their arguments into the template's three
      slots, provided an inserted text contains no occurrence of a placeholder
      replaced after it. */
  lemma FillSplices(whereStr: string, offsetStr: string, limitStr: string)
    requires Inert(whereStr, OFFSET_PLACEHOLDER) && Inert(whereStr, LIMIT_PLACEHOLDER)
    requires Inert(offsetStr, LIMIT_PLACEHOLDER)
    ensures Fill(whereStr, offsetStr, limitStr)
         == HEAD + whereStr + AFTER_WHERE + offsetStr + AFTER_OFFSET + limitStr + TAIL
  {
    TemplateInert();
    SpliceWhere(HEAD, AFTER_WHERE, AFTER_OFFSET, TAIL,
                WHERE_PLACEHOLDER, OFFSET_PLACEHOLDER, LIMIT_PLACEHOLDER, whereStr);
    SpliceOffset(HEAD, whereStr, AFTER_WHERE, AFTER_OFFSET, TAIL,
                 OFFSET_PLACEHOLDER, LIMIT_PLACEHOLDER, offsetStr);
    SpliceLimit(HEAD, whereStr, AFTER_WHERE, offsetStr, AFTER_OFFSET, TAIL,
                LIMIT_PLACEHOLDER, limitStr);
  }

  /** Neither filter value contains a brace. */
  predicate FreeOfBraces(filter: Filter) {
    && (filter.sender.Some? ==> '{' !in filter.sender.value)
    && (filter.entryFunction.Some? ==> '{' !in filter.entryFunction.value)
  }

  /** The text of a clause before its value. */
  lemma ClauseOpenInert(field: string, pat: string)
    requires IsPlaceholder(pat) && '{' !in field
    ensures Inert(field + ": {_eq: \"", pat)
  {
    assert field + ": {_eq: \"" == field + ": " + "{_" + "eq: \"";
    assert '{' !in "eq: \"";
    InertWithout(field + ": ", pat);
    InertWithout("eq: \"", pat);
    InertAppend(field + ": ", "{_", pat);
    InertAppend(field + ": " + "{_", "eq: \"", pat);
  }

  lemma ClauseInert(field: string, value: string, pat: string)
    requires IsPlaceholder(pat)
    requires '{' !in field && '{' !in value
    ensures Inert(Clause(field, value), pat)
  {
    ClauseOpenInert(field, pat);
    assert '{' !in value + "\"}";
    InertWithout(value + "\"}", pat);
    InertAppend(field + ": {_eq: \"", value + "\"}", pat);
    assert Clause(field, value) == field + ": {_eq: \"" + (value + "\"}");
  }

  lemma {:induction false} JoinInert(sep: string, parts: seq<string>, pat: string)
    requires |pat| >= 2 && Inert(sep, pat)
    requires forall i :: 0 <= i < |parts| ==> Inert(parts[i], pat)
    ensures Inert(Join(sep, parts), pat)
    decreases |parts|
  {
    if |parts| == 0 {
    } else if |parts| > 1 {
      JoinInert(sep, parts[1..], pat);
      InertAppend(parts[0], sep, pat);
      InertAppend(parts[0] + sep, Join(sep, parts[1..]), pat);
    }
  }

  lemma WhereStringInert(filter: Filter, pat: string)
    requires IsPlaceholder(pat)
    requires FreeOfBraces(filter)
    ensures Inert(WhereString(filter), pat)
  {
    var clauses := FilterClauses(filter);
    forall i | 0 <= i < |clauses| ensures Inert(clauses[i], pat) {
      if Truthy(filter.sender) && i == 0 {
        ClauseInert("sender", filter.sender.value, pat);
      } else {
        ClauseInert("entry_function_id_str", filter.entryFunction.value, pat);
      }
    }
    InertWithout(", ", pat);
    JoinInert(", ", clauses, pat);
  }

  /** With brace-free filter values, the query is the template with the
      where-string, `str(offset)` and `str(limit)` in its three slots. */
  lemma QueryTextSplices(filter: Filter, offset: nat, limit: nat)
    requires FreeOfBraces(filter)
    ensures QueryText(filter, offset, limit)
         == HEAD + WhereString(filter) + AFTER_WHERE + DecimalString(offset)
            + AFTER_OFFSET + DecimalString(limit) + TAIL
  {
    PlaceholdersArePlaceholders();
    WhereStringInert(filter, OFFSET_PLACEHOLDER);
    WhereStringInert(filter, LIMIT_PLACEHOLDER);
    InertWithout(DecimalString(offset), LIMIT_PLACEHOLDER);
    FillSplices(WhereString(filter), DecimalString(offset), DecimalString(limit));
  }

  /** The three replacements when the inserted where-text itself holds the
      last placeholder `pl` once, between `open` and `close`. */
  lemma SpliceWithInjectedLimit(head: string, afterW: string, afterO: string, tail: string,
                                pw: string, po: string, pl: string,
                                open: string, close: string, o: string, l: string)
    requires |pw| >= 2 && |po| >= 2 && |pl| >= 2
    requires Inert(head, pw) && Inert(afterW, pw) && Inert(afterO, pw) && Inert(tail, pw)
    requires Inert(head, po) && Inert(afterW, po) && Inert(afterO, po) && Inert(tail, po)
    requires Inert(head, pl) && Inert(afterW, pl) && Inert(afterO, pl) && Inert(tail, pl)
    requires Inert(po, pw) && Inert(pl, pw) && Inert(pl, po)
    requires Inert(open, po) && Inert(close, po) && Inert(open, pl) && Inert(close, pl)
    requires Inert(o, pl)
    ensures Replace(Replace(Replace(head + pw + afterW + po + afterO + pl + tail,
                                    pw, open + pl + close), po, o), pl, l)
         == head + (open + l + close) + afterW + o + afterO + l + tail
  {
    var w := open + pl + close;
    SpliceWhere(head, afterW, afterO, tail, pw, po, pl, w);
    InertAppend(open, pl, po);
    InertAppend(open + pl, close, po);
    SpliceOffset(head, w, afterW, afterO, tail, po, pl, o);
    SpliceLimitTwice(head, open, close, afterW, o, afterO, tail, pl, l);
  }

  /** The last replacement of `SpliceWithInjectedLimit`: two occurrences. */
  lemma SpliceLimitTwice(head: string, open: string, close: string, afterW: string,
                         o: string, afterO: string, tail: string, pl: string, l: string)
    requires |pl| >= 2 && Inert(head, pl) && Inert(open, pl) && Inert(close, pl)
    requires Inert(afterW, pl) && Inert(o, pl) && Inert(afterO, pl) && Inert(tail, pl)
    ensures Replace(head + (open + pl + close) + afterW + o + afterO + pl + tail, pl, l)
         == head + (open + l + close) + afterW + o + afterO + l + tail
  {
    var front := head + open;
    var mid := close + afterW + o + afterO;
    InertAppend(head, open, pl);
    InertAppend(close, afterW, pl);
    InertAppend(close + afterW, o, pl);
    InertAppend(close + afterW + o, afterO, pl);
    Regroup(head, open, close, afterW, o, afterO, tail, pl);
    Regroup(head, open, close, afterW, o, afterO, tail, l);
    ReplaceFirst(front, mid + pl + tail, pl, l);
    ReplaceInSlot(mid, tail, pl, l);
  }

  lemma Regroup(head: string, open: string, close: string, afterW: string,
                o: string, afterO: string, tail: string, x: string)
    ensures head + (open + x + close) + afterW + o + afterO + x + tail
         == (head + open) + x + ((close + afterW + o + afterO) + x + tail)
  {
  }

  /** The replacements run over text that already holds the filter values, so
      a placeholder inside a filter value is substituted too: a sender given
      as "{limit}" is queried as the page size. */
  lemma PlaceholderInFilterIsSubstituted(offset: nat, limit: nat)
    ensures QueryText(Filter(Some(LIMIT_PLACEHOLDER), None), offset, limit)
         == HEAD + SenderClause(DecimalString(limit)) + AFTER_WHERE
            + DecimalString(offset) + AFTER_OFFSET + DecimalString(limit) + TAIL
  {
    var o, l := DecimalString(offset), DecimalString(limit);
    var open, close := "sender" + ": {_eq: \"", "\"}";
    assert WhereString(Filter(Some(LIMIT_PLACEHOLDER), None)) == open + LIMIT_PLACEHOLDER + close;
    TemplateInert();
    InjectedSenderInert(offset);
    SpliceWithInjectedLimit(HEAD, AFTER_WHERE, AFTER_OFFSET, TAIL,
                            WHERE_PLACEHOLDER, OFFSET_PLACEHOLDER, LIMIT_PLACEHOLDER,
                            open, close, o, l);
  }

  /** No template piece, and no later placeholder, starts a placeholder. */
  lemma TemplateInert()
    ensures |WHERE_PLACEHOLDER| >= 2 && |OFFSET_PLACEHOLDER| >= 2 && |LIMIT_PLACEHOLDER| >= 2
    ensures Inert(HEAD, WHERE_PLACEHOLDER) && Inert(AFTER_WHERE, WHERE_PLACEHOLDER)
    ensures Inert(AFTER_OFFSET, WHERE_PLACEHOLDER) && Inert(TAIL, WHERE_PLACEHOLDER)
    ensures Inert(HEAD, OFFSET_PLACEHOLDER) && Inert(AFTER_WHERE, OFFSET_PLACEHOLDER)
    ensures Inert(AFTER_OFFSET, OFFSET_PLACEHOLDER) && Inert(TAIL, OFFSET_PLACEHOLDER)
    ensures Inert(HEAD, LIMIT_PLACEHOLDER) && Inert(AFTER_WHERE, LIMIT_PLACEHOLDER)
    ensures Inert(AFTER_OFFSET, LIMIT_PLACEHOLDER) && Inert(TAIL, LIMIT_PLACEHOLDER)
    ensures Inert(OFFSET_PLACEHOLDER, WHERE_PLACEHOLDER)
    ensures Inert(LIMIT_PLACEHOLDER, WHERE_PLACEHOLDER)
    ensures Inert(LIMIT_PLACEHOLDER, OFFSET_PLACEHOLDER)
  {
    PlaceholdersArePlaceholders();
    PiecesInert(WHERE_PLACEHOLDER);
    PiecesInert(OFFSET_PLACEHOLDER);
    PiecesInert(LIMIT_PLACEHOLDER);
  }

  /** The text around a sender value, and the decimal offset, start neither
      the offset nor the limit placeholder. */
  lemma InjectedSenderInert(offset: nat)
    ensures Inert("sender" + ": {_eq: \"", OFFSET_PLACEHOLDER)
    ensures Inert("sender" + ": {_eq: \"", LIMIT_PLACEHOLDER)
    ensures Inert("\"}", OFFSET_PLACEHOLDER) && Inert("\"}", LIMIT_PLACEHOLDER)
    ensures Inert(DecimalString(offset), LIMIT_PLACEHOLDER)
  {
    PlaceholdersArePlaceholders();
    assert '{' !in "sender" && '{' !in "\"}";
    ClauseOpenInert("sender", OFFSET_PLACEHOLDER);
    ClauseOpenInert("sender", LIMIT_PLACEHOLDER);
    InertWithout("\"}", OFFSET_PLACEHOLDER);
    InertWithout("\"}", LIMIT_PLACEHOLDER);
    InertWithout(DecimalString(offset), LIMIT_PLACEHOLDER);
  }
}
