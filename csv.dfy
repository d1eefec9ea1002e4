/** `writecsv` of amazon.js: a header line, then one line per book of six
    double-quoted fields, each `"` inside a field doubled, fields separated
    by `,`, every line ending in `\n`. A reader for that format states what
    the text means: it gives back every field of every book. */
module Csv {
  import opened Wrappers
  import opened Books

  const Header: string :=
    "\"Authors\", \"Title\", \"ASIN\", \"Order URL\", \"Product Image\", \"Acquired Date\"\n"

  /** The six columns of a row, in output order. */
  function Fields(b: Book): (fs: seq<string>)
    ensures |fs| == 6
  {
    [b.authors, b.title, b.asin, b.orderDetailURL, b.productImage, b.acquiredDate]
  }

  /** `replace(/"/g, '""')`: every double quote doubled. */
  function Escape(s: string): (r: string)
    ensures |r| >= |s|
  {
    if s == [] then []
    else (if s[0] == '"' then "\"\"" else [s[0]]) + Escape(s[1..])
  }

  function Quote(s: string): string
  {
    "\"" + Escape(s) + "\""
  }

  /** Quoted fields joined by commas. */
  function Joined(fs: seq<string>): string
  {
    if |fs| == 0 then ""
    else if |fs| == 1 then Quote(fs[0])
    else Quote(fs[0]) + "," + Joined(fs[1..])
  }

  function Row(b: Book): string
  {
    Joined(Fields(b)) + "\n"
  }

  function Rows(items: seq<Book>): string
  {
    if items == [] then "" else Row(items[0]) + Rows(items[1..])
  }

  /** The whole text `writecsv` hands to `fs.write`. */
  function CsvText(items: seq<Book>): string
  {
    Header + Rows(items)
  }

  /** One field more of a row: the comma (unless first) and the quoted field. */
  lemma JoinedStep(out0: string, fs: seq<string>, v: nat)
    requires v < |fs|
    ensures out0 + Joined(fs[..v]) + (if v > 0 then "," else "") + Quote(fs[v]) ==
            out0 + Joined(fs[..v + 1])
  {
    JoinedSnoc(fs[..v], fs[v]);
    assert fs[..v] + [fs[v]] == fs[..v + 1];
  }

  lemma {:induction false} JoinedSnoc(fs: seq<string>, x: string)
    ensures Joined(fs + [x]) == Joined(fs) + (if |fs| > 0 then "," else "") + Quote(x)
  {
    if |fs| > 1 {
      assert (fs + [x])[1..] == fs[1..] + [x];
      JoinedSnoc(fs[1..], x);
    } else if |fs| == 1 {
      assert (fs + [x])[1..] == [x];
    }
  }

  /** One line more of the output. */
  lemma RowsStep(out0: string, items: seq<Book>, it: nat)
    requires it < |items|
    ensures out0 + Rows(items[..it]) + Row(items[it]) == out0 + Rows(items[..it + 1])
  {
    RowsSnoc(items[..it], items[it]);
    assert items[..it] + [items[it]] == items[..it + 1];
  }

  lemma {:induction false} RowsSnoc(items: seq<Book>, b: Book)
    ensures Rows(items + [b]) == Rows(items) + Row(b)
  {
    if items == [] {
      assert [b][1..] == [];
    } else {
      assert (items + [b])[1..] == items[1..] + [b];
      RowsSnoc(items[1..], b);
    }
  }

  /** `writecsv`: the header, then one line per book. */
  method WriteCsv(items: seq<Book>) returns (out: string)
    ensures out == CsvText(items)
  {
    out := AppendRows(Header, items);
  }

  /** The outer loop of `writecsv`: appends one line per book to `out`. */
  method AppendRows(out0: string, items: seq<Book>) returns (out: string)
    ensures out == out0 + Rows(items)
  {
    out := out0;
    var it := 0;
    while it < |items|
      invariant 0 <= it <= |items|
      invariant out == out0 + Rows(items[..it])
    {
      out := AppendRow(out, items[it]);
      RowsStep(out0, items, it);
      it := it + 1;
    }
    assert items[..|items|] == items;
  }

  /** The inner loop of `writecsv`: `val` holds the book's six values and is
      rewritten in place as each is escaped; `notfirst` places the commas. */
  method AppendRow(out0: string, b: Book) returns (out: string)
    ensures out == out0 + Row(b)
  {
    out := out0;
    var val := Fields(b);
    ghost var original := val;
    var notfirst := false;
    var v := 0;
    while v < |val|
      invariant 0 <= v <= |val| == 6
      invariant notfirst <==> v > 0
      invariant forall k :: v <= k < 6 ==> val[k] == original[k]
      invariant out == out0 + Joined(original[..v])
    {
      val := val[v := Escape(val[v])];
      ghost var before := out;
      if notfirst {
        out := out + ",";
      } else {
        notfirst := true;
      }
      out := out + "\"" + val[v] + "\"";
      assert out == before + (if v > 0 then "," else "") + Quote(original[v]);
      JoinedStep(out0, original, v);
      v := v + 1;
    }
    out := out + "\n";
    assert original[..6] == original;
  }

  // ---- Reading the format back ----

  /** Reads the inside of a quoted field (the opening quote already consumed):
      `""` stands for one quote, a lone `"` closes the field. Gives the value
      and the text after the closing quote. */
  function ReadQuotedBody(t: string): (r: Option<(string, string)>)
    ensures r.Some? ==> |r.value.1| < |t|
  {
    if t == [] then None
    else if t[0] == '"' then
      if |t| >= 2 && t[1] == '"' then
        match ReadQuotedBody(t[2..])
        case None => None
        case Some((v, rest)) => Some(("\"" + v, rest))
      else Some(("", t[1..]))
    else
      match ReadQuotedBody(t[1..])
      case None => None
      case Some((v, rest)) => Some(([t[0]] + v, rest))
  }

  /** Reads one line of comma-separated quoted fields ending in `\n`. */
  function ReadRow(t: string): (r: Option<(seq<string>, string)>)
    ensures r.Some? ==> |r.value.1| < |t|
    decreases |t|
  {
    if t == [] || t[0] != '"' then None
    else
      match ReadQuotedBody(t[1..])
      case None => None
      case Some((v, rest)) =>
        if rest == [] then None
        else if rest[0] == '\n' then Some(([v], rest[1..]))
        else if rest[0] == ',' then
          match ReadRow(rest[1..])
          case None => None
          case Some((vs, rest')) => Some(([v] + vs, rest'))
        else None
  }

  /** Reads lines until the text is used up. */
  function ReadRows(t: string): (r: Option<seq<seq<string>>>)
    decreases |t|
  {
    if t == [] then Some([])
    else
      match ReadRow(t)
      case None => None
      case Some((fs, rest)) =>
        match ReadRows(rest)
        case None => None
        case Some(more) => Some([fs] + more)
  }

  function ParseCsv(t: string): Option<seq<seq<string>>>
  {
    if |Header| <= |t| && t[..|Header|] == Header then ReadRows(t[|Header|..]) else None
  }

  /** An escaped value followed by the closing quote reads back as the value,
      provided the next character is not a quote (it is `,` or `\n`). */
  lemma {:induction false} QuoteRoundTrip(s: string, rest: string)
    requires rest == [] || rest[0] != '"'
    ensures ReadQuotedBody(Escape(s) + "\"" + rest) == Some((s, rest))
  {
    var t := Escape(s) + "\"" + rest;
    if s == [] {
      assert t == "\"" + rest;
      assert t[1..] == rest;
    } else {
      QuoteRoundTrip(s[1..], rest);
      if s[0] == '"' {
        assert t == "\"\"" + (Escape(s[1..]) + "\"" + rest);
        assert t[2..] == Escape(s[1..]) + "\"" + rest;
        assert "\"" + s[1..] == s;
      } else {
        assert t == [s[0]] + (Escape(s[1..]) + "\"" + rest);
        assert t[1..] == Escape(s[1..]) + "\"" + rest;
        assert [s[0]] + s[1..] == s;
      }
    }
  }

  /** A written line reads back as its fields. */
  lemma {:induction false} RowRoundTrip(fs: seq<string>, rest: string)
    requires |fs| >= 1
    ensures ReadRow(Joined(fs) + "\n" + rest) == Some((fs, rest))
  {
    var t := Joined(fs) + "\n" + rest;
    if |fs| == 1 {
      assert fs == [fs[0]];
      assert t == Quote(fs[0]) + ("\n" + rest);
      QuotedField(fs[0], "\n" + rest);
      assert ("\n" + rest)[1..] == rest;
    } else {
      var tail := Joined(fs[1..]) + "\n" + rest;
      assert t == Quote(fs[0]) + ("," + tail);
      QuotedField(fs[0], "," + tail);
      assert ("," + tail)[1..] == tail;
      RowRoundTrip(fs[1..], rest);
      assert [fs[0]] + fs[1..] == fs;
    }
  }

  /** A quoted field opens with a quote, and its body reads back up to the
      closing quote. */
  lemma QuotedField(v: string, after: string)
    requires after == [] || after[0] != '"'
    ensures var t := Quote(v) + after;
            |t| > 0 && t[0] == '"' && ReadQuotedBody(t[1..]) == Some((v, after))
  {
    var t := Quote(v) + after;
    QuoteRoundTrip(v, after);
    assert t[1..] == Escape(v) + "\"" + after;
  }

  /** The text `writecsv` produces reads back, line by line, as the six
      fields of every book in order: quoting loses nothing and no field
      leaks into its neighbour. */
  lemma {:induction false} CsvRoundTrip(items: seq<Book>)
    ensures ParseCsv(CsvText(items)).Some?
    ensures |ParseCsv(CsvText(items)).value| == |items|
    ensures forall i :: 0 <= i < |items| ==> ParseCsv(CsvText(items)).value[i] == Fields(items[i])
  {
    var t := CsvText(items);
    assert t[..|Header|] == Header && t[|Header|..] == Rows(items);
    RowsRoundTrip(items);
  }

  lemma {:induction false} RowsRoundTrip(items: seq<Book>)
    ensures ReadRows(Rows(items)).Some?
    ensures |ReadRows(Rows(items)).value| == |items|
    ensures forall i :: 0 <= i < |items| ==> ReadRows(Rows(items)).value[i] == Fields(items[i])
  {
    if items != [] {
      RowRoundTrip(Fields(items[0]), Rows(items[1..]));
      assert Rows(items) == Joined(Fields(items[0])) + "\n" + Rows(items[1..]);
      RowsRoundTrip(items[1..]);
      var r := ReadRows(Rows(items)).value;
      forall i | 0 <= i < |items| ensures r[i] == Fields(items[i]) {
        if i > 0 {
          assert items[1..][i - 1] == items[i];
        }
      }
    }
  }
}
