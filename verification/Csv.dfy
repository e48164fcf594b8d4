/** Reading one row of comma-separated fields, quoted or bare. */
module Csv {
  const QUOTE := '"'
  const COMMA := ','

  // ---- what the reader computes ----

  /** The fields of the rest of a row, given the field read so far. */
  function Fields(s: string, field: string, inQuotes: bool): (fields: seq<string>)
    ensures fields != []
    decreases |s|
  {
    if s == "" then [field]
    else if s[0] == QUOTE then
      if !inQuotes then
        if field != "" then Fields(s[1..], field + [QUOTE], false) else Fields(s[1..], field, true)
      else if |s| > 1 && s[1] == QUOTE then Fields(s[2..], field + [QUOTE], true)
      else Fields(s[1..], field, false)
    else if s[0] == COMMA && !inQuotes then [field] + Fields(s[1..], "", false)
    else Fields(s[1..], field + [s[0]], inQuotes)
  }

  /** The next character of a row, together with the quote it is doubled with. */
  lemma FieldsStep(input: string, i: nat, fields: seq<string>, field: string, inQuotes: bool)
    requires i < |input|
    ensures var ch, rest := input[i], input[i + 1..];
      fields + Fields(input[i..], field, inQuotes) ==
        if ch == QUOTE then
          if !inQuotes then
            if field != "" then fields + Fields(rest, field + [QUOTE], false) else fields + Fields(rest, field, true)
          else if i + 1 < |input| && input[i + 1] == QUOTE then fields + Fields(input[i + 2..], field + [QUOTE], true)
          else fields + Fields(rest, field, false)
        else if ch == COMMA && !inQuotes then fields + [field] + Fields(rest, "", false)
        else fields + Fields(rest, field + [ch], inQuotes)
  {
    var s := input[i..];
    assert s[1..] == input[i + 1..] && (|s| > 1 ==> s[2..] == input[i + 2..] && s[1] == input[i + 1]);
    assert fields + ([field] + Fields(s[1..], "", false)) == fields + [field] + Fields(s[1..], "", false);
  }

  method ParseCsvRow(input: string) returns (fields: seq<string>)
    ensures fields == Fields(input, "", false)
  {
    hide Fields;
    fields := [];
    var field, inQuotes := "", false;
    var i := 0;
    assert input[0..] == input && [] + Fields(input, "", false) == Fields(input, "", false);
    while i < |input|
      invariant 0 <= i <= |input|
      invariant Fields(input, "", false) == fields + Fields(input[i..], field, inQuotes)
    {
      var ch := input[i];
      FieldsStep(input, i, fields, field, inQuotes);
      if ch == QUOTE {
        if !inQuotes {
          if field != "" {
            field := field + [QUOTE];
          } else {
            inQuotes := true;
          }
        } else if i + 1 < |input| && input[i + 1] == QUOTE {
          field := field + [QUOTE];
          i := i + 1;
        } else {
          inQuotes := false;
        }
      } else if ch == COMMA {
        if inQuotes {
          field := field + [COMMA];
        } else {
          fields := fields + [field];
          field := "";
        }
      } else {
        field := field + [ch];
      }
      i := i + 1;
    }
    LastField(input[i..], field, inQuotes);
    fields := fields + [field];
  }

  lemma LastField(s: string, field: string, inQuotes: bool)
    requires s == ""
    ensures Fields(s, field, inQuotes) == [field]
  {
  }

  // ---- writing a row ----

  function Doubled(field: string): string {
    if field == "" then "" else (if field[0] == QUOTE then [QUOTE, QUOTE] else [field[0]]) + Doubled(field[1..])
  }

  /** A field written as it is: it may hold quotes, but not in front, and no comma. */
  predicate Bare(field: string) { COMMA !in field && (field != "" ==> field[0] != QUOTE) }

  function Printed(field: string, quoted: bool): string {
    if quoted then [QUOTE] + Doubled(field) + [QUOTE] else field
  }

  function Row(fields: seq<string>, quoted: seq<bool>): string
    requires |fields| == |quoted| > 0
    decreases |fields|
  {
    if |fields| == 1 then Printed(fields[0], quoted[0])
    else Printed(fields[0], quoted[0]) + [COMMA] + Row(fields[1..], quoted[1..])
  }

  /** What may follow a field: nothing, or a comma and the next field. */
  predicate AfterField(rest: string) { rest == "" || rest[0] == COMMA }

  lemma {:induction false} BareReads(done: string, field: string, rest: string)
    requires COMMA !in field && (done == "" && field != "" ==> field[0] != QUOTE)
    ensures Fields(field + rest, done, false) == Fields(rest, done + field, false)
    decreases |field|
  {
    if field == "" {
      assert field + rest == rest && done + field == done;
    } else {
      assert (field + rest)[1..] == field[1..] + rest;
      BareReads(done + [field[0]], field[1..], rest);
      assert done + [field[0]] + field[1..] == done + field;
    }
  }

  lemma {:induction false} DoubledReads(done: string, field: string, rest: string)
    requires AfterField(rest)
    ensures Fields(Doubled(field) + [QUOTE] + rest, done, true) == Fields(rest, done + field, false)
    decreases |field|
  {
    var s := Doubled(field) + [QUOTE] + rest;
    if field == "" {
      assert s == [QUOTE] + rest && s[1..] == rest && done + field == done;
    } else {
      var t := Doubled(field[1..]) + [QUOTE] + rest;
      assert done + [field[0]] + field[1..] == done + field;
      if field[0] == QUOTE {
        assert s == [QUOTE, QUOTE] + t && s[2..] == t;
      } else {
        assert s == [field[0]] + t && s[1..] == t;
      }
      DoubledReads(done + [field[0]], field[1..], rest);
    }
  }

  lemma FieldReads(field: string, quoted: bool, rest: string)
    requires AfterField(rest) && (!quoted ==> Bare(field))
    ensures Fields(Printed(field, quoted) + rest, "", false) == Fields(rest, field, false)
  {
    hide Fields, Doubled;
    assert "" + field == field;
    if quoted {
      OpenQuote(Doubled(field) + [QUOTE] + rest);
      assert Printed(field, true) + rest == [QUOTE] + (Doubled(field) + [QUOTE] + rest);
      DoubledReads("", field, rest);
    } else {
      BareReads("", field, rest);
    }
  }

  lemma OpenQuote(s: string)
    ensures Fields([QUOTE] + s, "", false) == Fields(s, "", true)
  {
    assert ([QUOTE] + s)[1..] == s;
  }

  /** Reading undoes writing: any fields, each quoted or, where that is possible, bare. */
  lemma {:induction false} RowReads(fields: seq<string>, quoted: seq<bool>)
    requires |fields| == |quoted| > 0 && forall i | 0 <= i < |fields| && !quoted[i] :: Bare(fields[i])
    ensures Fields(Row(fields, quoted), "", false) == fields
    decreases |fields|
  {
    hide Fields, Printed, Bare;
    var p := Printed(fields[0], quoted[0]);
    if |fields| == 1 {
      FieldReads(fields[0], quoted[0], "");
      LastField("", fields[0], false);
      assert p + "" == p && fields == [fields[0]];
    } else {
      var rest := [COMMA] + Row(fields[1..], quoted[1..]);
      FieldReads(fields[0], quoted[0], rest);
      FieldsStep(rest, 0, [], fields[0], false);
      assert rest[0..] == rest && rest[1..] == Row(fields[1..], quoted[1..]);
      RowReads(fields[1..], quoted[1..]);
      assert p + [COMMA] + Row(fields[1..], quoted[1..]) == p + rest;
      assert [] + [fields[0]] + fields[1..] == fields &&
          [] + Fields(rest, fields[0], false) == Fields(rest, fields[0], false);
    }
  }

  /** Quoting just the fields that cannot stand bare is enough. */
  lemma MinimalQuoting(fields: seq<string>)
    requires fields != []
    ensures Fields(Row(fields, seq(|fields|, i requires 0 <= i < |fields| => !Bare(fields[i]))), "", false) == fields
  {
    hide Fields, Bare;
    RowReads(fields, seq(|fields|, i requires 0 <= i < |fields| => !Bare(fields[i])));
  }

  /** Commas outside quotes. A quote opens only where the field has no characters yet,
      and inside quotes two quotes are a character. */
  function CommasOutside(s: string, started: bool, inQuotes: bool): nat
    decreases |s|
  {
    if s == "" then 0
    else if inQuotes then
      if s[0] != QUOTE then CommasOutside(s[1..], true, true)
      else if |s| > 1 && s[1] == QUOTE then CommasOutside(s[2..], true, true)
      else CommasOutside(s[1..], started, false)
    else if s[0] == COMMA then 1 + CommasOutside(s[1..], false, false)
    else if s[0] == QUOTE && !started then CommasOutside(s[1..], false, true)
    else CommasOutside(s[1..], true, false)
  }

  /** There is one more field than commas outside quotes. */
  lemma {:induction false} FieldCount(s: string, field: string, inQuotes: bool)
    ensures |Fields(s, field, inQuotes)| == 1 + CommasOutside(s, field != "", inQuotes)
    decreases |s|
  {
    if s != "" {
      var ch := s[0];
      if ch == QUOTE && inQuotes && |s| > 1 && s[1] == QUOTE {
        FieldCount(s[2..], field + [QUOTE], true);
      } else if ch == QUOTE && (inQuotes || field == "") {
        FieldCount(s[1..], field, !inQuotes);
      } else if ch == COMMA && !inQuotes {
        FieldCount(s[1..], "", false);
      } else {
        FieldCount(s[1..], field + [ch], inQuotes);
      }
    }
  }

  function Size(fields: seq<string>): nat { if fields == [] then 0 else |fields[0]| + Size(fields[1..]) }

  lemma SizeCons(x: string, fields: seq<string>)
    ensures Size([x] + fields) == |x| + Size(fields) && Size([x]) == |x|
  {
    assert ([x] + fields)[1..] == fields && [x][1..] == [];
  }

  /** The fields hold no more characters than were read. */
  lemma {:induction false} NothingAdded(s: string, done: string, inQuotes: bool)
    ensures Size(Fields(s, done, inQuotes)) <= |done| + |s|
    decreases |s|
  {
    hide Size;
    SizeCons(done, if s != "" then Fields(s[1..], "", false) else []);
    if s != "" {
      var ch := s[0];
      if ch == QUOTE && inQuotes && |s| > 1 && s[1] == QUOTE {
        NothingAdded(s[2..], done + [QUOTE], true);
      } else if ch == QUOTE && (inQuotes || done == "") {
        NothingAdded(s[1..], done, !inQuotes);
      } else if ch == COMMA && !inQuotes {
        NothingAdded(s[1..], "", false);
      } else {
        NothingAdded(s[1..], done + [ch], inQuotes);
      }
    }
  }

  /** Outside quotes, and not in front of a field a quote could open, a comma ends the field. */
  lemma {:induction false} CommaSplits(s: string, done: string)
    requires COMMA in s && (done == "" ==> s[0] != QUOTE)
    ensures |Fields(s, done, false)| > 1
    decreases |s|
  {
    if s[0] != COMMA { CommaSplits(s[1..], done + [s[0]]); }
  }

  /** A field that holds a comma, or starts with a quote, is lost when written bare. */
  lemma BareExactly(field: string)
    ensures Fields(field, "", false) == [field] <==> Bare(field)
  {
    if Bare(field) {
      BareReads("", field, "");
      assert field + "" == field && "" + field == field;
    } else if field[0] == QUOTE {
      SizeCons(field, []);
      NothingAdded(field[1..], "", true);
    } else {
      CommaSplits(field, "");
    }
  }

  /** The quote and the comma themselves: a quote inside quotes is doubled, a comma ends a
      bare field only. */
  lemma QuoteAndComma()
    ensures Fields("a,b", "", false) == ["a", "b"]
    ensures Fields("\"a,\"\"b\",", "", false) == ["a,\"b", ""]
  {
    hide Fields;
    var f, g := ["a", "b"], ["a,\"b", ""];
    RowReads(f, [false, false]);
    RowReads(g, [true, false]);
    assert f[1..] == ["b"] && g[1..] == [""];
    assert Doubled("b") == "b" && Doubled("\"b") == "\"\"b" && Doubled("a,\"b") == "a,\"\"b";
    assert Row(f, [false, false]) == "a,b" && Row(g, [true, false]) == "\"a,\"\"b\",";
  }
}
