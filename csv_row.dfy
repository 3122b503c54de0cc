/**
 * `parseCSVRow` (data.js): split one CSV line into trimmed fields. A double
 * quote toggles a quoted section and is dropped; a comma outside a quoted
 * section ends a field. Doubled quotes inside a quoted field are NOT an escaped
 * quote (section 2, rule 7 of RFC 4180 is not followed): they toggle twice and vanish.
 */
module CsvRow {
  import opened JsString

  /** The loop's variables: the fields pushed so far, the field being read, the quote flag. */
  datatype ScanState = ScanState(fields: seq<string>, current: string, inQuotes: bool)

  const Start := ScanState([], "", false)

  /** One iteration of the loop. */
  function Step(st: ScanState, c: char): ScanState {
    if c == '"' then st.(inQuotes := !st.inQuotes)
    else if c == ',' && !st.inQuotes then ScanState(st.fields + [Trim(st.current)], "", st.inQuotes)
    else st.(current := st.current + [c])
  }

  /** The loop's variables after reading all of `s`, starting from `st`. */
  function ScanFrom(st: ScanState, s: string): ScanState
    decreases |s|
  {
    if s == [] then st else Step(ScanFrom(st, s[..|s| - 1]), s[|s| - 1])
  }

  /** The fields of a line: those pushed by the loop and the trimmed last one. */
  function Fields(row: string): seq<string> {
    var st := ScanFrom(Start, row);
    st.fields + [Trim(st.current)]
  }

  method ParseCsvRow(row: string) returns (result: seq<string>)
    ensures result == Fields(row)
  {
    result := [];
    var current := "";
    var inQuotes := false;
    for i := 0 to |row|
      invariant ScanState(result, current, inQuotes) == ScanFrom(Start, row[..i])
    {
      assert row[..i + 1][..i] == row[..i];
      var c := row[i];
      if c == '"' {
        inQuotes := !inQuotes;
      } else if c == ',' && !inQuotes {
        result := result + [Trim(current)];
        current := "";
      } else {
        current := current + [c];
      }
    }
    assert row[..|row|] == row;
    result := result + [Trim(current)];
  }

  // ------------------------------------------------------------ reference view

  function QuoteCount(s: string): nat {
    multiset(s)['"']
  }

  /** Position `k` holds a comma preceded by an even number of quotes: it ends a field. */
  predicate IsSeparator(s: string, k: int) {
    0 <= k < |s| && s[k] == ',' && QuoteCount(s[..k]) % 2 == 0
  }

  function SeparatorCount(s: string): nat {
    if s == [] then 0
    else SeparatorCount(s[..|s| - 1]) + (if IsSeparator(s, |s| - 1) then 1 else 0)
  }

  /** `s` with every double quote removed. */
  function Unquoted(s: string): (r: string)
    ensures '"' !in r
  {
    if s == [] then []
    else Unquoted(s[..|s| - 1]) + (if s[|s| - 1] == '"' then [] else [s[|s| - 1]])
  }

  lemma SeparatorInPrefix(s: string, n: nat, k: int)
    requires n <= |s|
    ensures IsSeparator(s[..n], k) <==> (k < n && IsSeparator(s, k))
  {
    if 0 <= k < n {
      assert s[..n][..k] == s[..k];
    }
  }

  /** The quote flag is the parity of the quotes read so far. */
  lemma {:induction false} ScanQuoteParity(s: string)
    ensures ScanFrom(Start, s).inQuotes == (QuoteCount(s) % 2 == 1)
  {
    if s != [] {
      var p, c := s[..|s| - 1], s[|s| - 1];
      ScanQuoteParity(p);
      assert multiset(s) == multiset(p) + multiset{c} by {
        assert s == p + [c];
      }
    }
  }

  /** One field is pushed per separating comma. */
  lemma {:induction false} ScanFieldCount(s: string)
    ensures |ScanFrom(Start, s).fields| == SeparatorCount(s)
  {
    if s != [] {
      var p, c := s[..|s| - 1], s[|s| - 1];
      ScanFieldCount(p);
      ScanQuoteParity(p);
      assert IsSeparator(s, |s| - 1) <==> c == ',' && !ScanFrom(Start, p).inQuotes;
    }
  }

  /** No quote is ever stored, and every pushed field is trimmed. */
  lemma {:induction false} ScanFieldShape(s: string)
    ensures var st := ScanFrom(Start, s);
      && '"' !in st.current
      && forall i :: 0 <= i < |st.fields| ==> '"' !in st.fields[i] && IsTrimmed(st.fields[i])
  {
    if s != [] {
      var p, c := s[..|s| - 1], s[|s| - 1];
      ScanFieldShape(p);
      var st := ScanFrom(Start, p);
      if c == ',' && !st.inQuotes {
        TrimKeeps(st.current);
        assert multiset(Trim(st.current))['"'] <= multiset(st.current)['"'];
      }
    }
  }

  /** `parseCSVRow` returns one field more than there are separating commas; never an empty list. */
  lemma FieldCount(row: string)
    ensures |Fields(row)| == 1 + SeparatorCount(row)
  {
    ScanFieldCount(row);
  }

  lemma NoQuoteInFields(row: string)
    ensures forall i :: 0 <= i < |Fields(row)| ==> '"' !in Fields(row)[i] && IsTrimmed(Fields(row)[i])
  {
    ScanFieldShape(row);
    var st := ScanFrom(Start, row);
    assert '"' !in Trim(st.current) by {
      TrimKeeps(st.current);
      assert multiset(Trim(st.current))['"'] <= multiset(st.current)['"'];
    }
  }

  lemma EmptyLine()
    ensures Fields("") == [""]
  {
  }

  lemma {:induction false} ScanFromAppend(st: ScanState, a: string, b: string)
    ensures ScanFrom(st, a + b) == ScanFrom(ScanFrom(st, a), b)
  {
    if b == [] {
      assert a + b == a;
    } else {
      assert (a + b)[..|a + b| - 1] == a + b[..|b| - 1];
      ScanFromAppend(st, a, b[..|b| - 1]);
    }
  }

  /** A doubled quote toggles the flag twice and leaves no trace. */
  lemma DoubledQuoteVanishes(a: string, b: string)
    ensures Fields(a + "\"\"" + b) == Fields(a + b)
  {
    var st := ScanFrom(Start, a);
    ScanFromAppend(Start, a + "\"\"", b);
    ScanFromAppend(Start, a, "\"\"");
    ScanFromAppend(Start, a, b);
    assert "\"\""[..1] == "\"";
    assert ScanFrom(st, "\"") == st.(inQuotes := !st.inQuotes) by {
      assert "\""[..0] == [];
    }
    assert ScanFrom(st, "\"\"") == st;
  }

  /** Fields already pushed are carried along unchanged by the rest of the scan. */
  lemma {:induction false} ScanCarriesFields(done: seq<string>, c: string, q: bool, s: string)
    ensures var r := ScanFrom(ScanState([], c, q), s);
      ScanFrom(ScanState(done, c, q), s) == ScanState(done + r.fields, r.current, r.inQuotes)
  {
    if s != [] {
      ScanCarriesFields(done, c, q, s[..|s| - 1]);
      var r := ScanFrom(ScanState([], c, q), s[..|s| - 1]);
      assert done + (r.fields + [Trim(r.current)]) == (done + r.fields) + [Trim(r.current)];
    }
  }

  /** Splitting a line at a separating comma splits its fields there. */
  lemma FieldsSplitAtSeparator(s: string, k: int)
    requires IsSeparator(s, k)
    ensures Fields(s) == Fields(s[..k]) + Fields(s[k + 1..])
  {
    var pre, post := s[..k], s[k + 1..];
    assert s == pre + [','] + post;
    var st := ScanFrom(Start, pre);
    ScanQuoteParity(pre);
    assert !st.inQuotes;
    var mid := ScanState(Fields(pre), "", false);
    assert ScanFrom(st, [',']) == mid by {
      assert [','][..0] == [];
    }
    ScanFromAppend(Start, pre, [',']);
    ScanFromAppend(Start, pre + [','], post);
    assert ScanFrom(Start, s) == ScanFrom(mid, post);
    ScanCarriesFields(Fields(pre), "", false, post);
    var r := ScanFrom(Start, post);
    assert ScanFrom(Start, s) == ScanState(Fields(pre) + r.fields, r.current, r.inQuotes);
    assert Fields(s) == (Fields(pre) + r.fields) + [Trim(r.current)];
  }

  lemma {:induction false} ScanWithoutSeparator(s: string)
    requires forall k :: !IsSeparator(s, k)
    ensures ScanFrom(Start, s) == ScanState([], Unquoted(s), QuoteCount(s) % 2 == 1)
  {
    if s != [] {
      var p, c := s[..|s| - 1], s[|s| - 1];
      var prev := ScanFrom(Start, p);
      assert ScanFrom(Start, s) == Step(prev, c);
      assert prev == ScanState([], Unquoted(p), QuoteCount(p) % 2 == 1) by {
        forall k ensures !IsSeparator(p, k) {
          SeparatorInPrefix(s, |s| - 1, k);
        }
        ScanWithoutSeparator(p);
      }
      assert QuoteCount(s) == QuoteCount(p) + (if c == '"' then 1 else 0) by {
        assert s == p + [c];
        assert multiset(s) == multiset(p) + multiset{c};
      }
      assert Unquoted(s) == Unquoted(p) + (if c == '"' then [] else [c]);
      var q := QuoteCount(p);
      if c == '"' {
        assert Step(prev, c) == ScanState([], Unquoted(p), q % 2 == 0);
        assert (q % 2 == 0) == ((q + 1) % 2 == 1);
      } else {
        if c == ',' {
          assert !IsSeparator(s, |s| - 1);
          assert q % 2 == 1;
        }
        assert Step(prev, c) == ScanState([], Unquoted(p) + [c], q % 2 == 1);
      }
    }
  }

  /** A line with no separating comma is one field: the line without its quotes, trimmed. */
  lemma FieldsWithoutSeparator(s: string)
    requires forall k :: !IsSeparator(s, k)
    ensures Fields(s) == [Trim(Unquoted(s))]
  {
    ScanWithoutSeparator(s);
  }

  lemma NoSeparatorIn(s: string)
    requires '"' !in s || s == "\"b,c\""
    requires ',' !in s || s == "\"b,c\""
    ensures forall k :: !IsSeparator(s, k)
  {
    forall k | 0 <= k < |s| && s[k] == ','
      ensures QuoteCount(s[..k]) % 2 == 1
    {
      assert k == 2;
      assert s[..2] == "\"b";
      assert QuoteCount(s[..2]) == 1;
    }
  }

  lemma UnquotedInnerField()
    ensures Unquoted("\"b,c\"") == "b,c"
  {
    var u := "\"b,c\"";
    assert u[..0] == [];
    assert Unquoted(u[..1]) == [] by { assert u[..1][..0] == []; }
    assert Unquoted(u[..2]) == "b" by { assert u[..2][..1] == u[..1]; }
    assert Unquoted(u[..3]) == "b," by { assert u[..3][..2] == u[..2]; }
    assert Unquoted(u[..4]) == "b,c" by { assert u[..4][..3] == u[..3]; }
    assert u[..|u| - 1] == u[..4];
  }

  lemma SingleField(s: string, f: string)
    requires forall k :: !IsSeparator(s, k)
    requires Unquoted(s) == f && IsTrimmed(f)
    ensures Fields(s) == [f]
  {
    FieldsWithoutSeparator(s);
    TrimOfTrimmed(f);
  }

  lemma PlainOuterField(s: string)
    requires s == "a" || s == "d"
    ensures Fields(s) == [s]
  {
    NoSeparatorIn(s);
    assert Unquoted(s) == s by {
      assert s[..0] == [];
    }
    SingleField(s, s);
  }

  lemma PlainInnerField(u: string)
    requires u == "\"b,c\""
    ensures Fields(u) == ["b,c"]
  {
    NoSeparatorIn(u);
    UnquotedInnerField();
    SingleField(u, "b,c");
  }

  lemma SplitTwice(s: string, i: int, j: int, x: seq<string>, y: seq<string>, z: seq<string>)
    requires IsSeparator(s, i) && IsSeparator(s[i + 1..], j)
    requires Fields(s[..i]) == x && Fields(s[i + 1..][..j]) == y && Fields(s[i + 1..][j + 1..]) == z
    ensures Fields(s) == x + y + z
  {
    var t := s[i + 1..];
    FieldsSplitAtSeparator(s, i);
    assert Fields(s) == x + Fields(t);
    FieldsSplitAtSeparator(t, j);
    assert Fields(t) == y + z;
  }

  /** The line `a,"b,c",d`, spelled character by character. */
  predicate IsExampleLine(s: string) {
    |s| == 9 && s[0] == 'a' && s[1] == ',' && s[2] == '"' && s[3] == 'b' && s[4] == ','
    && s[5] == 'c' && s[6] == '"' && s[7] == ',' && s[8] == 'd'
  }

  lemma ExampleSeparators(s: string)
    requires IsExampleLine(s)
    ensures IsSeparator(s, 1) && IsSeparator(s[2..], 5)
  {
    var t := s[2..];
    assert s[..1] == "a" && t == "\"b,c\",d";
    assert t[..5] == "\"b,c\"";
    assert QuoteCount(t[..5]) == 2;
  }

  lemma ExampleFields(s: string)
    requires IsExampleLine(s)
    ensures Fields(s[..1]) == ["a"] && Fields(s[2..][..5]) == ["b,c"] && Fields(s[2..][6..]) == ["d"]
  {
    assert s[..1] == "a" && s[2..][6..] == "d" && s[2..][..5] == "\"b,c\"";
    PlainOuterField(s[..1]);
    PlainOuterField(s[2..][6..]);
    PlainInnerField(s[2..][..5]);
  }

  lemma ExampleSplit(s: string)
    requires IsExampleLine(s)
    ensures Fields(s) == ["a"] + ["b,c"] + ["d"]
  {
    ExampleSeparators(s);
    ExampleFields(s);
    SplitTwice(s, 1, 5, ["a"], ["b,c"], ["d"]);
  }

  /** A quoted comma stays inside its field: `a,"b,c",d` gives `a`, `b,c` and `d`. */
  lemma QuotedCommaExample(s: string)
    requires IsExampleLine(s)
    ensures Fields(s) == ["a", "b,c", "d"]
  {
    ExampleSplit(s);
  }
}
