/** Contacts as CSV rows: one row for each email on export, rows with equal fields gathered into
    one contact on import (internal/api/contacts_io.go). Reading and writing the CSV text itself
    is left to its library: the model starts and ends at rows of cells. */
module ContactsCSV {
  import opened Text
  import opened Lists
  import opened Ordering

  datatype Email = Email(address: string, caption: string, primary: bool)

  datatype Imported = Imported(
    name: string, nicknames: seq<string>, emails: seq<Email>, notes: string,
    groups: seq<string>, account: string, sender: string)

  datatype Contact = Contact(
    name: string, nicknames: seq<string>, emails: seq<Email>, notes: string,
    groupIDs: seq<string>, account: string, sender: string)

  // ----- lists in one cell -----

  /** `strings.Split(s, "|")`. */
  function Split(s: string): (r: seq<string>)
    ensures |r| > 0
  {
    if s == "" then [""]
    else
      var r := Split(s[1..]);
      if s[0] == '|' then [""] + r else [[s[0]] + r[0]] + r[1..]
  }

  /** Blanks dropped, parts trimmed, and of parts equal but for case the first kept. */
  function Distill(parts: seq<string>, seen: set<string>): seq<string> {
    if parts == [] then []
    else
      var v := TrimSpace(parts[0]);
      if v == "" || ToLower(v) in seen then Distill(parts[1..], seen)
      else [v] + Distill(parts[1..], seen + {ToLower(v)})
  }

  function Values(raw: string): seq<string> {
    if TrimSpace(raw) == "" then [] else Distill(Split(raw), {})
  }

  method SplitPipeValues(raw: string) returns (out: seq<string>)
    ensures out == Values(raw)
  {
    out := [];
    if TrimSpace(raw) == "" {
      return;
    }
    hide TrimSpace;
    var parts := Split(raw);
    var seen: set<string> := {};
    for i := 0 to |parts|
      invariant out + Distill(parts[i..], seen) == Distill(parts, {})
    {
      assert parts[i..][1..] == parts[i + 1..];
      var value := TrimSpace(parts[i]);
      if value == "" {
        continue;
      }
      var key := ToLower(value);
      if key in seen {
        continue;
      }
      seen := seen + {key};
      out := out + [value];
    }
  }

  predicate CleanPart(v: string) {
    v != "" && Trimmed(v) && '|' !in v
  }

  predicate FoldDistinct(values: seq<string>) {
    forall i, j :: 0 <= i < j < |values| ==> ToLower(values[i]) != ToLower(values[j])
  }

  predicate Clean(values: seq<string>) {
    (forall i :: 0 <= i < |values| ==> CleanPart(values[i])) && FoldDistinct(values)
  }

  lemma {:induction false} SplitPlain(s: string)
    requires '|' !in s
    ensures Split(s) == [s]
  {
    if s != "" {
      SplitPlain(s[1..]);
      assert [s[0]] + s[1..] == s;
    }
  }

  lemma {:induction false} SplitFirst(v: string, rest: string)
    requires '|' !in v
    ensures Split(v + "|" + rest) == [v] + Split(rest)
  {
    var s := v + "|" + rest;
    if v == "" {
      assert s[1..] == rest;
    } else {
      assert s[1..] == v[1..] + "|" + rest;
      SplitFirst(v[1..], rest);
      assert [v[0]] + v[1..] == v;
    }
  }

  lemma {:induction false} SplitJoin(values: seq<string>)
    requires values != [] && forall i :: 0 <= i < |values| ==> CleanPart(values[i])
    ensures Split(Join(values, "|")) == values
  {
    assert CleanPart(values[0]);
    if |values| == 1 {
      SplitPlain(values[0]);
    } else {
      SplitFirst(values[0], Join(values[1..], "|"));
      SplitJoin(values[1..]);
    }
  }

  lemma {:induction false} SplitHasNoPipe(s: string)
    ensures forall i :: 0 <= i < |Split(s)| ==> '|' !in Split(s)[i]
  {
    if s != "" {
      SplitHasNoPipe(s[1..]);
    }
  }

  lemma {:induction false} DistillClean(values: seq<string>, seen: set<string>)
    requires Clean(values) && forall i :: 0 <= i < |values| ==> ToLower(values[i]) !in seen
    ensures Distill(values, seen) == values
  {
    if values != [] {
      assert CleanPart(values[0]);
      TrimmedIsFixed(values[0]);
      hide TrimSpace, ToLower, CleanPart;
      DistillClean(values[1..], seen + {ToLower(values[0])});
    }
  }

  /** Whatever the parts, what is left of them is clean. */
  lemma {:induction false} DistillIsClean(parts: seq<string>, seen: set<string>)
    requires forall i :: 0 <= i < |parts| ==> '|' !in parts[i]
    ensures Clean(Distill(parts, seen))
    ensures forall i :: 0 <= i < |Distill(parts, seen)| ==> ToLower(Distill(parts, seen)[i]) !in seen
  {
    if parts != [] {
      var v := TrimSpace(parts[0]);
      var i, j := TrimSpaceSplits(parts[0]);
      assert v == "" || CleanPart(v);
      hide TrimSpace, ToLower, CleanPart;
      DistillIsClean(parts[1..], if v == "" || ToLower(v) in seen then seen else seen + {ToLower(v)});
    }
  }

  lemma ValuesAreClean(raw: string)
    ensures Clean(Values(raw))
  {
    SplitHasNoPipe(raw);
    DistillIsClean(Split(raw), {});
    hide TrimSpace, Split, Distill, CleanPart;
  }

  lemma {:induction false} JoinTrimmed(values: seq<string>)
    requires forall i :: 0 <= i < |values| ==> CleanPart(values[i])
    ensures Trimmed(Join(values, "|")) && (values != [] ==> Join(values, "|") != "")
  {
    if values != [] {
      assert CleanPart(values[0]);
      JoinTrimmed(values[1..]);
    }
  }

  /** A list survives its cell exactly when it is clean. */
  lemma CellRoundTrip(values: seq<string>)
    ensures Values(TrimSpace(Join(values, "|"))) == values <==> Clean(values)
  {
    ValuesAreClean(TrimSpace(Join(values, "|")));
    if Clean(values) {
      JoinTrimmed(values);
      TrimmedIsFixed(Join(values, "|"));
      if values != [] {
        SplitJoin(values);
        DistillClean(values, {});
      }
      hide TrimSpace, Split, Distill, Clean;
    }
  }

  // ----- rows -----

  const HEADER: seq<string> := ["name", "nicknames", "email", "email_label", "is_primary", "groups", "notes",
    "preferred_account_id", "preferred_sender_id"]

  function FoldLess(): (string, string) -> bool {
    (a: string, b: string) => StringLess(ToLower(a), ToLower(b))
  }

  function SortFold(names: seq<string>): seq<string> {
    StableSort(names, FoldLess())
  }

  /** The names of a contact's groups, those unknown or unnamed left out. */
  function NamesOf(ids: seq<string>, groups: map<string, string>): seq<string> {
    if ids == [] then []
    else
      var rest := NamesOf(ids[1..], groups);
      if ids[0] in groups && TrimSpace(groups[ids[0]]) != "" then [groups[ids[0]]] + rest else rest
  }

  /** A contact as an import can give it back: its groups by name. */
  function Image(c: Contact, groups: map<string, string>): Imported {
    Imported(c.name, c.nicknames, c.emails, c.notes, SortFold(NamesOf(c.groupIDs, groups)), c.account, c.sender)
  }

  function Row(c: Imported, email: string, caption: string, primary: string): (r: seq<string>)
    ensures |r| == |HEADER|
  {
    [TrimSpace(c.name), Join(c.nicknames, "|"), email, caption, primary, Join(c.groups, "|"),
     TrimSpace(c.notes), TrimSpace(c.account), TrimSpace(c.sender)]
  }

  function BoolText(b: bool): string {
    if b then "true" else "false"
  }

  function EmailRow(c: Imported, e: Email): seq<string> {
    Row(c, TrimSpace(e.address), TrimSpace(e.caption), BoolText(e.primary))
  }

  function RowsOf(c: Imported): seq<seq<string>> {
    if c.emails == [] then [Row(c, "", "", "")] else Map(c.emails, (e: Email) => EmailRow(c, e))
  }

  function Export(cs: seq<Imported>): seq<seq<string>> {
    [HEADER] + Flatten(Map(cs, (c: Imported) => RowsOf(c)))
  }

  function Images(cs: seq<Contact>, groups: map<string, string>): (r: seq<Imported>)
    ensures |r| == |cs| && forall i :: 0 <= i < |cs| ==> r[i] == Image(cs[i], groups)
  {
    seq(|cs|, i requires 0 <= i < |cs| => Image(cs[i], groups))
  }

  lemma NamesOfNone(groups: map<string, string>)
    ensures NamesOf([], groups) == []
  {
  }

  lemma NamesOfStep(id: string, rest: seq<string>, groups: map<string, string>)
    ensures NamesOf([id] + rest, groups) ==
      if id in groups && TrimSpace(groups[id]) != "" then [groups[id]] + NamesOf(rest, groups)
        else NamesOf(rest, groups)
  {
    hide TrimSpace;
    assert ([id] + rest)[1..] == rest;
  }

  method GroupNames(ids: seq<string>, groups: map<string, string>) returns (names: seq<string>)
    ensures names == SortFold(NamesOf(ids, groups))
  {
    hide TrimSpace, SortFold, NamesOf;
    names := [];
    NamesOfNone(groups);
    for j := 0 to |ids|
      invariant names + NamesOf(ids[j..], groups) == NamesOf(ids, groups)
    {
      NamesOfStep(ids[j], ids[j + 1..], groups);
      assert ids[j..] == [ids[j]] + ids[j + 1..];
      if ids[j] in groups && TrimSpace(groups[ids[j]]) != "" {
        names := names + [groups[ids[j]]];
      }
    }
    assert ids[|ids|..] == [] && names + [] == names;
    names := SortFold(names);
  }

  method WriteContact(c: Imported) returns (rows: seq<seq<string>>)
    ensures rows == RowsOf(c)
  {
    hide Row, EmailRow;
    if |c.emails| == 0 {
      return [Row(c, "", "", "")];
    }
    rows := [];
    for j := 0 to |c.emails|
      invariant |rows| == j && forall k :: 0 <= k < j ==> rows[k] == EmailRow(c, c.emails[k])
    {
      rows := rows + [EmailRow(c, c.emails[j])];
    }
  }

  method ExportContactsCSV(contacts: seq<Contact>, groups: map<string, string>) returns (rows: seq<seq<string>>)
    ensures rows == Export(Images(contacts, groups))
  {
    hide RowsOf, SortFold, NamesOf, HEADER, Flatten, Map;
    rows := [HEADER];
    ghost var images := Images(contacts, groups);
    ghost var f := (c: Imported) => RowsOf(c);
    ExportNone(images, f);
    for i := 0 to |contacts|
      invariant rows == [HEADER] + Flatten(Map(images[..i], f))
    {
      var contact := contacts[i];
      var names := GroupNames(contact.groupIDs, groups);
      var c := Imported(contact.name, contact.nicknames, contact.emails, contact.notes, names, contact.account,
        contact.sender);
      assert c == images[i];
      var written := WriteContact(c);
      ExportSnoc(images, i, f);
      rows := rows + written;
    }
    assert images[..|contacts|] == images;
  }

  lemma ExportNone(cs: seq<Imported>, f: Imported -> seq<seq<string>>)
    ensures [HEADER] + Flatten(Map(cs[..0], f)) == [HEADER]
  {
    hide HEADER;
    assert Map(cs[..0], f) == [];
  }

  lemma ExportSnoc(cs: seq<Imported>, i: nat, f: Imported -> seq<seq<string>>)
    requires i < |cs|
    ensures Flatten(Map(cs[..i + 1], f)) == Flatten(Map(cs[..i], f)) + f(cs[i])
  {
    assert Map(cs[..i + 1], f) == Map(cs[..i], f) + [f(cs[i])];
    FlattenSnoc(Map(cs[..i], f), f(cs[i]));
  }

  // ----- import -----

  function HeaderName(cell: string): string {
    ToLower(TrimSpace(cell))
  }

  /** Where each column is; of columns with one name, the last. */
  function Columns(cells: seq<string>): (r: map<string, nat>)
    ensures forall k :: k in r ==> r[k] < |cells|
  {
    if cells == [] then map[]
    else
      var n := |cells| - 1;
      Columns(cells[..n])[HeaderName(cells[n]) := n]
  }

  function Cell(columns: map<string, nat>, row: seq<string>, key: string): string {
    if key in columns && columns[key] < |row| then TrimSpace(row[columns[key]]) else ""
  }

  predicate ParseBool(raw: string) {
    ToLower(TrimSpace(raw)) in {"1", "true", "yes", "y", "on"}
  }

  function Item(columns: map<string, nat>, row: seq<string>): Imported {
    var email := Cell(columns, row, "email");
    Imported(
      Cell(columns, row, "name"), Values(Cell(columns, row, "nicknames")),
      if email == "" then []
      else [Email(email, Cell(columns, row, "email_label"), ParseBool(Cell(columns, row, "is_primary")))],
      Cell(columns, row, "notes"), Values(Cell(columns, row, "groups")),
      Cell(columns, row, "preferred_account_id"), Cell(columns, row, "preferred_sender_id"))
  }

  /** What rows must share to belong to one contact. */
  function KeyOf(c: Imported): string {
    Join([TrimSpace(c.name), Join(SortFold(c.nicknames), "|"), TrimSpace(c.notes), Join(SortFold(c.groups), "|"),
          TrimSpace(c.account), TrimSpace(c.sender)], "\U{1F}")
  }

  function FindKey(out: seq<Imported>, key: string): (r: Option<nat>)
    ensures r.Some? ==> r.value < |out| && KeyOf(out[r.value]) == key
    ensures r.None? ==> forall i :: 0 <= i < |out| ==> KeyOf(out[i]) != key
  {
    FirstIndex(KeysOf(out), key)
  }

  function KeysOf(out: seq<Imported>): (r: seq<string>)
    ensures |r| == |out| && forall i :: 0 <= i < |out| ==> r[i] == KeyOf(out[i])
  {
    Map(out, KeyOf)
  }

  function FirstIndex(keys: seq<string>, key: string): (r: Option<nat>)
    ensures r.Some? ==> r.value < |keys| && keys[r.value] == key
    ensures r.None? ==> forall i :: 0 <= i < |keys| ==> keys[i] != key
  {
    if keys == [] then None
    else if keys[0] == key then Some(0)
    else
      var r := FirstIndex(keys[1..], key);
      if r.None? then None else Some(r.value + 1)
  }

  /** One more row: its email joins the contact with the same key, or it starts a contact. */
  function Absorb(out: seq<Imported>, item: Imported): seq<Imported> {
    var at := FindKey(out, KeyOf(item));
    if at.Some? then out[at.value := out[at.value].(emails := out[at.value].emails + item.emails)] else out + [item]
  }

  function Gather(items: seq<Imported>): seq<Imported> {
    if items == [] then [] else Absorb(Gather(items[..|items| - 1]), items[|items| - 1])
  }

  function Items(rows: seq<seq<string>>): seq<Imported>
    requires rows != []
  {
    var columns := Columns(rows[0]);
    Map(rows[1..], (row: seq<string>) => Item(columns, row))
  }

  function Parse(rows: seq<seq<string>>): seq<Imported> {
    if rows == [] then [] else Gather(Items(rows))
  }

  predicate KeysDistinct(out: seq<Imported>) {
    forall i, j :: 0 <= i < j < |out| ==> KeyOf(out[i]) != KeyOf(out[j])
  }

  /** The index of keys that import keeps. */
  predicate Indexed(index: map<string, nat>, out: seq<Imported>) {
    && (forall k :: k in index ==> index[k] < |out| && KeyOf(out[index[k]]) == k)
    && (forall j :: 0 <= j < |out| ==> KeyOf(out[j]) in index && index[KeyOf(out[j])] == j)
  }

  lemma FindIndexed(out: seq<Imported>, index: map<string, nat>, key: string)
    requires Indexed(index, out) && key in index
    ensures FindKey(out, key) == Some(index[key])
  {
    hide KeyOf;
  }

  lemma IndexedStays(index: map<string, nat>, out: seq<Imported>, at: nat, c: Imported)
    requires Indexed(index, out) && at < |out| && KeyOf(c) == KeyOf(out[at])
    ensures Indexed(index, out[at := c])
  {
    hide KeyOf;
    var out' := out[at := c];
    assert forall j :: 0 <= j < |out| ==> KeyOf(out'[j]) == KeyOf(out[j]);
  }

  lemma AbsorbKnown(out: seq<Imported>, index: map<string, nat>, item: Imported)
    requires Indexed(index, out) && KeyOf(item) in index
    ensures var at := index[KeyOf(item)]; var out' := out[at := out[at].(emails := out[at].emails + item.emails)];
      Absorb(out, item) == out' && Indexed(index, out')
  {
    var at := index[KeyOf(item)];
    FindIndexed(out, index, KeyOf(item));
    var c := out[at].(emails := out[at].emails + item.emails);
    KeyIgnoresEmails(out[at], c.emails);
    hide KeyOf, FindKey, Indexed;
    IndexedStays(index, out, at, c);
  }

  lemma AbsorbNew(out: seq<Imported>, index: map<string, nat>, item: Imported)
    requires Indexed(index, out) && KeyOf(item) !in index
    ensures Absorb(out, item) == out + [item] && Indexed(index[KeyOf(item) := |out|], out + [item])
  {
    hide KeyOf;
  }

  method AbsorbItem(out: seq<Imported>, index: map<string, nat>, item: Imported)
    returns (out': seq<Imported>, index': map<string, nat>)
    requires Indexed(index, out)
    ensures out' == Absorb(out, item) && Indexed(index', out')
  {
    var key := KeyOf(item);
    assert key in index ==> index[key] < |out|;
    hide KeyOf, Absorb, Indexed;
    if key in index {
      var at := index[key];
      AbsorbKnown(out, index, item);
      return out[at := out[at].(emails := out[at].emails + item.emails)], index;
    } else {
      AbsorbNew(out, index, item);
      return out + [item], index[key := |out|];
    }
  }

  method ParseContactsCSV(rows: seq<seq<string>>) returns (out: seq<Imported>)
    ensures out == Parse(rows)
  {
    hide KeyOf, Item, Columns, Absorb;
    out := [];
    if |rows| == 0 {
      return;
    }
    var columns := ReadHeader(rows[0]);
    var index: map<string, nat> := map[];
    ghost var items := Items(rows);
    for i := 1 to |rows|
      invariant out == Gather(items[..i - 1]) && Indexed(index, out)
    {
      var item := Item(columns, rows[i]);
      assert item == items[i - 1];
      assert items[..i][..i - 1] == items[..i - 1];
      hide Indexed;
      out, index := AbsorbItem(out, index, item);
    }
    assert items[..|rows| - 1] == items;
  }

  lemma KeyIgnoresEmails(c: Imported, emails: seq<Email>)
    ensures KeyOf(c.(emails := emails)) == KeyOf(c)
  {
    hide SortFold, TrimSpace;
  }

  method ReadHeader(cells: seq<string>) returns (columns: map<string, nat>)
    ensures columns == Columns(cells)
  {
    columns := map[];
    for i := 0 to |cells|
      invariant columns == Columns(cells[..i])
    {
      assert cells[..i + 1][..i] == cells[..i];
      columns := columns[HeaderName(cells[i]) := i];
    }
    assert cells[..|cells|] == cells;
  }
}
