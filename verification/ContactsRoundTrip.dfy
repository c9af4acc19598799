/** Importing what was exported, and what any import satisfies. */
module ContactsRoundTrip {
  import opened Text
  import opened Lists
  import opened Ordering
  import opened ContactsCSV

  // ----- the columns of an export -----

  predicate PlainName(s: string) {
    s != "" && forall i :: 0 <= i < |s| ==> 'a' <= s[i] <= 'z' || s[i] == '_'
  }

  lemma PlainIsItself(s: string)
    requires PlainName(s)
    ensures HeaderName(s) == s
  {
    TrimmedIsFixed(s);
    hide TrimSpace;
  }

  lemma {:induction false} ColumnsPlain(cells: seq<string>)
    requires Distinct(cells) && forall i :: 0 <= i < |cells| ==> HeaderName(cells[i]) == cells[i]
    ensures forall i :: 0 <= i < |cells| ==> cells[i] in Columns(cells) && Columns(cells)[cells[i]] == i
  {
    hide HeaderName;
    if cells != [] {
      var n := |cells| - 1;
      ColumnsPlain(cells[..n]);
      assert forall i :: 0 <= i < n ==> cells[i] == cells[..n][i];
    }
  }

  lemma HeaderPlain(i: nat)
    requires i < |HEADER|
    ensures HeaderName(HEADER[i]) == HEADER[i]
  {
    assert PlainName(HEADER[i]);
    hide HEADER;
    PlainIsItself(HEADER[i]);
  }

  lemma HeaderLength(i: nat)
    requires i < |HEADER|
    ensures |HEADER[i]| == [4, 9, 5, 11, 10, 6, 5, 20, 19][i]
  {
  }

  lemma HeaderDistinct(i: nat, j: nat)
    requires i < j < |HEADER|
    ensures HEADER[i] != HEADER[j]
  {
    HeaderLength(i);
    HeaderLength(j);
    if i == 2 && j == 6 {
      assert HEADER[2][0] == 'e' && HEADER[6][0] == 'n';
    } else {
      assert [4, 9, 5, 11, 10, 6, 5, 20, 19][i] != [4, 9, 5, 11, 10, 6, 5, 20, 19][j];
    }
  }

  lemma HeaderNames()
    ensures Distinct(HEADER)
    ensures forall i :: 0 <= i < |HEADER| ==> HeaderName(HEADER[i]) == HEADER[i]
  {
    hide HEADER, HeaderName;
    forall i, j | 0 <= i < j < |HEADER| ensures HEADER[i] != HEADER[j] {
      HeaderDistinct(i, j);
    }
    forall i | 0 <= i < |HEADER| ensures HeaderName(HEADER[i]) == HEADER[i] {
      HeaderPlain(i);
    }
  }

  lemma CellOf(row: seq<string>, i: nat)
    requires |row| == |HEADER| && i < |HEADER|
    ensures Cell(Columns(HEADER), row, HEADER[i]) == TrimSpace(row[i])
  {
    HeaderNames();
    hide HEADER, HeaderName;
    ColumnsPlain(HEADER);
  }

  // ----- one row -----

  predicate TidyEmail(e: Email) {
    e.address != "" && Trimmed(e.address) && Trimmed(e.caption)
  }

  /** Fields trimmed, lists clean, no blank address. */
  predicate Tidy(c: Imported) {
    && Trimmed(c.name) && Trimmed(c.notes) && Trimmed(c.account) && Trimmed(c.sender)
    && Clean(c.nicknames) && Clean(c.groups)
    && forall i :: 0 <= i < |c.emails| ==> TidyEmail(c.emails[i])
  }

  /** The cells of an exported row, read back. */
  lemma ReadRow(c: Imported, email: string, caption: string, primary: string)
    requires Tidy(c)
    ensures Item(Columns(HEADER), Row(c, email, caption, primary)) ==
      c.(emails := if TrimSpace(email) == "" then []
        else [Email(TrimSpace(email), TrimSpace(caption), ParseBool(TrimSpace(primary)))])
  {
    var row := Row(c, email, caption, primary);
    forall i | 0 <= i < |HEADER| ensures Cell(Columns(HEADER), row, HEADER[i]) == TrimSpace(row[i]) {
      CellOf(row, i);
    }
    CellRoundTrip(c.nicknames);
    CellRoundTrip(c.groups);
    TrimmedIsFixed(c.name);
    TrimmedIsFixed(c.notes);
    TrimmedIsFixed(c.account);
    TrimmedIsFixed(c.sender);
    hide Columns, Cell, TrimSpace, Values, Clean, Join, Trimmed, ParseBool;
    var columns := Columns(HEADER);
    assert Cell(columns, row, HEADER[0]) == c.name && Cell(columns, row, HEADER[6]) == c.notes;
    assert Cell(columns, row, HEADER[7]) == c.account && Cell(columns, row, HEADER[8]) == c.sender;
    assert Cell(columns, row, HEADER[2]) == TrimSpace(email) && Cell(columns, row, HEADER[3]) == TrimSpace(caption);
    assert Cell(columns, row, HEADER[4]) == TrimSpace(primary);
    assert Values(Cell(columns, row, HEADER[1])) == c.nicknames && Values(Cell(columns, row, HEADER[5])) == c.groups;
  }

  lemma BoolRoundTrip(b: bool)
    ensures ParseBool(TrimSpace(BoolText(b))) == b
  {
    PlainIsItself("true");
    PlainIsItself("false");
    TrimmedIsFixed("true");
    TrimmedIsFixed("false");
    hide TrimSpace;
    assert |"false"| == 5 && "false"[0] == 'f';
  }

  lemma ReadEmailRow(c: Imported, e: Email)
    requires Tidy(c) && TidyEmail(e)
    ensures Item(Columns(HEADER), EmailRow(c, e)) == c.(emails := [e])
  {
    BoolRoundTrip(e.primary);
    TrimmedIsFixed(e.address);
    TrimmedIsFixed(e.caption);
    hide Item, Row, TrimSpace, ParseBool, BoolText, HEADER;
    ReadRow(c, TrimSpace(e.address), TrimSpace(e.caption), BoolText(e.primary));
  }

  // ----- the rows of a contact gather into it -----

  /** A contact taken apart: one piece for each email, or one without. */
  function Pieces(c: Imported): seq<Imported> {
    if c.emails == [] then [c] else Map(c.emails, (e: Email) => c.(emails := [e]))
  }

  function ItemsOf(rows: seq<seq<string>>): seq<Imported> {
    Map(rows, (row: seq<string>) => Item(Columns(HEADER), row))
  }

  lemma ReadRows(c: Imported)
    requires Tidy(c)
    ensures ItemsOf(RowsOf(c)) == Pieces(c)
  {
    if c.emails == [] {
      ReadRow(c, "", "", "");
      assert TrimSpace("") == "";
      hide Item, Row, HEADER, TrimSpace;
      assert c.(emails := []) == c;
    } else {
      forall i | 0 <= i < |c.emails| ensures Item(Columns(HEADER), EmailRow(c, c.emails[i])) ==
        c.(emails := [c.emails[i]]) {
        ReadEmailRow(c, c.emails[i]);
      }
      hide Item, EmailRow, HEADER;
    }
  }

  lemma AbsorbLast(out: seq<Imported>, c: Imported, item: Imported)
    requires KeyOf(c) == KeyOf(item) && Unknown(out, KeyOf(c))
    ensures Absorb(out + [c], item) == out + [c.(emails := c.emails + item.emails)]
  {
    hide KeyOf;
    var all := out + [c];
    assert forall i :: 0 <= i < |out| ==> all[i] == out[i];
    assert all[|out|] == c;
    assert FindKey(all, KeyOf(item)) == Some(|out|);
  }

  lemma GatherSnoc(items: seq<Imported>, item: Imported)
    ensures Gather(items + [item]) == Absorb(Gather(items), item)
  {
    hide Absorb;
    assert (items + [item])[..|items|] == items;
  }

  predicate Unknown(out: seq<Imported>, key: string) {
    forall i :: 0 <= i < |out| ==> KeyOf(out[i]) != key
  }

  lemma AbsorbFirst(out: seq<Imported>, item: Imported)
    requires Unknown(out, KeyOf(item))
    ensures Absorb(out, item) == out + [item]
  {
    hide KeyOf;
  }

  lemma PieceSnoc(items: seq<Imported>, c: Imported, n: nat)
    requires 0 < n <= |c.emails|
    ensures |Pieces(c)| == |c.emails|
    ensures items + Pieces(c)[..n] == items + Pieces(c)[..n - 1] + [c.(emails := [c.emails[n - 1]])]
    ensures items + Pieces(c)[..0] == items
  {
  }

  /** The first emails of a contact, gathered. */
  lemma {:induction false} GatherEmails(items: seq<Imported>, c: Imported, n: nat)
    requires 0 < n <= |c.emails| && |Pieces(c)| == |c.emails| && Unknown(Gather(items), KeyOf(c))
    ensures Gather(items + Pieces(c)[..n]) == Gather(items) + [c.(emails := c.emails[..n])]
  {
    hide KeyOf, Gather, Absorb, Pieces, Unknown;
    var piece := c.(emails := [c.emails[n - 1]]);
    KeyIgnoresEmails(c, piece.emails);
    PieceSnoc(items, c, n);
    GatherSnoc(items + Pieces(c)[..n - 1], piece);
    if n == 1 {
      assert c.emails[..1] == piece.emails;
      AbsorbFirst(Gather(items), piece);
    } else {
      GatherEmails(items, c, n - 1);
      KeyIgnoresEmails(c, c.emails[..n - 1]);
      assert c.emails[..n - 1] + piece.emails == c.emails[..n];
      AbsorbLast(Gather(items), c.(emails := c.emails[..n - 1]), piece);
    }
  }

  lemma GatherContact(items: seq<Imported>, c: Imported)
    requires Unknown(Gather(items), KeyOf(c))
    ensures Gather(items + Pieces(c)) == Gather(items) + [c]
  {
    if c.emails == [] {
      GatherSnoc(items, c);
      hide KeyOf, Gather, Absorb;
      AbsorbFirst(Gather(items), c);
    } else {
      hide KeyOf, Gather;
      assert |Pieces(c)| == |c.emails|;
      GatherEmails(items, c, |c.emails|);
      assert Pieces(c)[..|c.emails|] == Pieces(c);
      assert c.emails[..|c.emails|] == c.emails && c.(emails := c.emails) == c;
    }
  }

  lemma {:induction false} GatherAll(cs: seq<Imported>)
    requires KeysDistinct(cs)
    ensures Gather(Flatten(Map(cs, (c: Imported) => Pieces(c)))) == cs
  {
    if cs == [] {
      assert Map(cs, (c: Imported) => Pieces(c)) == [];
    } else {
      var n := |cs| - 1;
      KeysBefore(cs);
      PiecesSnoc(cs, n);
      SplitLast(cs);
      hide KeyOf, Pieces, Gather, Flatten, Map, KeysDistinct, Unknown;
      GatherAll(cs[..n]);
      GatherContact(Flatten(Map(cs[..n], (c: Imported) => Pieces(c))), cs[n]);
    }
  }

  lemma KeysBefore(cs: seq<Imported>)
    requires cs != [] && KeysDistinct(cs)
    ensures KeysDistinct(cs[..|cs| - 1]) && Unknown(cs[..|cs| - 1], KeyOf(cs[|cs| - 1]))
  {
    hide KeyOf;
  }

  lemma PiecesSnoc(cs: seq<Imported>, n: nat)
    requires |cs| == n + 1
    ensures var f := (c: Imported) => Pieces(c); Flatten(Map(cs, f)) == Flatten(Map(cs[..n], f)) + Pieces(cs[n])
  {
    var f := (c: Imported) => Pieces(c);
    hide Pieces;
    assert Map(cs, f) == Map(cs[..n], f) + [f(cs[n])];
    FlattenSnoc(Map(cs[..n], f), f(cs[n]));
  }

  lemma {:induction false} ReadAll(cs: seq<Imported>)
    requires forall i :: 0 <= i < |cs| ==> Tidy(cs[i])
    ensures ItemsOf(Flatten(Map(cs, (c: Imported) => RowsOf(c)))) == Flatten(Map(cs, (c: Imported) => Pieces(c)))
  {
    var f, g := (c: Imported) => RowsOf(c), (c: Imported) => Pieces(c);
    if cs == [] {
      assert Map(cs, f) == [] && Map(cs, g) == [];
    } else {
      ReadRows(cs[0]);
      ReadAll(cs[1..]);
      hide Tidy, RowsOf, Pieces, HEADER, Item;
      assert Map(cs, f)[1..] == Map(cs[1..], f) && Map(cs, g)[1..] == Map(cs[1..], g);
      MapAppend(f(cs[0]), Flatten(Map(cs[1..], f)), (row: seq<string>) => Item(Columns(HEADER), row));
    }
  }

  // ----- the order of exported groups -----

  lemma FoldOrder()
    ensures StrictWeakOrder(FoldLess())
  {
    var less := FoldLess();
    forall a ensures !less(a, a) {
      StringLessIrreflexive(ToLower(a));
    }
    forall a, b, c
      ensures less(a, b) && less(b, c) ==> less(a, c)
      ensures !less(a, b) && !less(b, c) ==> !less(a, c)
    {
      var x, y, z := ToLower(a), ToLower(b), ToLower(c);
      StringLessTransitive(x, y, z);
      StringLessTransitive(x, z, y);
      StringLessTransitive(y, x, z);
      StringLessTotal(x, y);
      StringLessTotal(y, z);
      hide StringLess, ToLower;
    }
  }

  /** Exported groups are the known names, in alphabetical order without regard to case. */
  lemma GroupsSorted(names: seq<string>)
    ensures multiset(SortFold(names)) == multiset(names) && Sorted(SortFold(names), FoldLess())
  {
    FoldOrder();
    StableSortCorrect(names, FoldLess());
  }

  // ----- any import -----

  lemma ItemTidy(columns: map<string, nat>, row: seq<string>)
    ensures Tidy(Item(columns, row))
  {
    ValuesAreClean(Cell(columns, row, "nicknames"));
    ValuesAreClean(Cell(columns, row, "groups"));
    forall key ensures Trimmed(Cell(columns, row, key)) {
      CellTrimmed(columns, row, key);
    }
    hide Cell, Values, Clean, Trimmed, ParseBool;
  }

  lemma CellTrimmed(columns: map<string, nat>, row: seq<string>, key: string)
    ensures Trimmed(Cell(columns, row, key))
  {
    if key in columns && columns[key] < |row| {
      TrimSpaceTrimmed(row[columns[key]]);
    }
  }

  lemma {:induction false} GatherTidy(items: seq<Imported>)
    requires forall i :: 0 <= i < |items| ==> Tidy(items[i])
    ensures forall i :: 0 <= i < |Gather(items)| ==> Tidy(Gather(items)[i])
    ensures KeysDistinct(Gather(items))
  {
    if items != [] {
      var n := |items| - 1;
      GatherTidy(items[..n]);
      AbsorbTidy(Gather(items[..n]), items[n]);
      hide Tidy, KeysDistinct, Absorb;
    }
  }

  lemma AbsorbTidy(out: seq<Imported>, item: Imported)
    requires Tidy(item) && KeysDistinct(out) && forall i :: 0 <= i < |out| ==> Tidy(out[i])
    ensures KeysDistinct(Absorb(out, item)) && forall i :: 0 <= i < |Absorb(out, item)| ==> Tidy(Absorb(out, item)[i])
  {
    var at := FindKey(out, KeyOf(item));
    if at.Some? {
      var c := out[at.value];
      var merged := c.(emails := c.emails + item.emails);
      KeyIgnoresEmails(c, merged.emails);
      MergedTidy(c, item);
      hide KeyOf, Tidy, FindKey;
      assert Absorb(out, item) == out[at.value := merged];
      assert forall i :: 0 <= i < |out| ==> KeyOf(Absorb(out, item)[i]) == KeyOf(out[i]);
    } else {
      hide KeyOf, Tidy;
    }
  }

  lemma MergedTidy(c: Imported, item: Imported)
    requires Tidy(c) && Tidy(item)
    ensures Tidy(c.(emails := c.emails + item.emails))
  {
    hide TidyEmail, Clean, Trimmed;
  }

  /** Every import gives tidy contacts with distinct keys. */
  lemma ParseTidy(rows: seq<seq<string>>)
    ensures KeysDistinct(Parse(rows)) && forall i :: 0 <= i < |Parse(rows)| ==> Tidy(Parse(rows)[i])
  {
    if rows != [] {
      forall i | 0 <= i < |Items(rows)| ensures Tidy(Items(rows)[i]) {
        ItemTidy(Columns(rows[0]), rows[1..][i]);
      }
      hide Tidy, Item, Columns, KeysDistinct, Gather;
      GatherTidy(Items(rows));
    }
  }

  /** Importing the rows of an export gives the contacts back, in order and whole, exactly when
      they are tidy and no two have the same key. */
  lemma ExportRoundTrip(cs: seq<Imported>)
    ensures Parse(Export(cs)) == cs <==> KeysDistinct(cs) && forall i :: 0 <= i < |cs| ==> Tidy(cs[i])
  {
    var rows := Export(cs);
    ParseTidy(rows);
    if KeysDistinct(cs) && forall i :: 0 <= i < |cs| ==> Tidy(cs[i]) {
      ReadAll(cs);
      GatherAll(cs);
      hide Tidy, KeysDistinct, Gather, Item, RowsOf, Pieces, HEADER;
      assert rows[0] == HEADER && rows[1..] == Flatten(Map(cs, (c: Imported) => RowsOf(c)));
      assert Items(rows) == ItemsOf(rows[1..]);
    }
  }

  // ----- counting emails -----

  function EmailCount(cs: seq<Imported>): nat {
    if cs == [] then 0 else |cs[0].emails| + EmailCount(cs[1..])
  }

  /** The data rows that name an address. */
  function AddressRows(columns: map<string, nat>, rows: seq<seq<string>>): nat {
    if rows == [] then 0 else (if Cell(columns, rows[0], "email") != "" then 1 else 0) + AddressRows(columns, rows[1..])
  }

  lemma {:induction false} CountAppend(a: seq<Imported>, b: seq<Imported>)
    ensures EmailCount(a + b) == EmailCount(a) + EmailCount(b)
  {
    if a == [] {
      assert a + b == b;
    } else {
      assert (a + b)[1..] == a[1..] + b;
      CountAppend(a[1..], b);
    }
  }

  lemma CountSnoc(a: seq<Imported>, c: Imported)
    ensures EmailCount(a + [c]) == EmailCount(a) + |c.emails|
  {
    CountAppend(a, [c]);
    assert [c][1..] == [];
  }

  lemma CountReplace(out: seq<Imported>, i: nat, c: Imported)
    requires i < |out|
    ensures EmailCount(out[i := c]) == EmailCount(out) - |out[i].emails| + |c.emails|
  {
    assert out == out[..i] + ([out[i]] + out[i + 1..]);
    assert out[i := c] == out[..i] + ([c] + out[i + 1..]);
    CountAppend(out[..i], [out[i]] + out[i + 1..]);
    CountAppend(out[..i], [c] + out[i + 1..]);
    CountAppend([out[i]], out[i + 1..]);
    CountAppend([c], out[i + 1..]);
  }

  lemma AbsorbCounts(out: seq<Imported>, item: Imported)
    ensures EmailCount(Absorb(out, item)) == EmailCount(out) + |item.emails|
  {
    var at := FindKey(out, KeyOf(item));
    if at.Some? {
      CountReplace(out, at.value, out[at.value].(emails := out[at.value].emails + item.emails));
    } else {
      CountSnoc(out, item);
    }
  }

  lemma {:induction false} GatherCounts(items: seq<Imported>)
    ensures EmailCount(Gather(items)) == EmailCount(items)
  {
    if items != [] {
      var n := |items| - 1;
      SplitLast(items);
      hide Absorb, Gather, EmailCount;
      GatherCounts(items[..n]);
      AbsorbCounts(Gather(items[..n]), items[n]);
      GatherSnoc(items[..n], items[n]);
      CountSnoc(items[..n], items[n]);
    }
  }

  lemma {:induction false} RowsCount(columns: map<string, nat>, rows: seq<seq<string>>)
    ensures EmailCount(Map(rows, (row: seq<string>) => Item(columns, row))) == AddressRows(columns, rows)
  {
    if rows != [] {
      RowsCount(columns, rows[1..]);
      hide Cell, Values, ParseBool;
      var items := Map(rows, (row: seq<string>) => Item(columns, row));
      assert items[1..] == Map(rows[1..], (row: seq<string>) => Item(columns, row));
    }
  }

  /** No address is lost or made up: for any rows at all, the contacts imported hold as many
      emails as there are data rows with an address. */
  lemma ImportKeepsAddresses(rows: seq<seq<string>>)
    requires rows != []
    ensures EmailCount(Parse(rows)) == AddressRows(Columns(rows[0]), rows[1..])
  {
    hide Gather, Item, Columns;
    GatherCounts(Items(rows));
    RowsCount(Columns(rows[0]), rows[1..]);
  }
}
