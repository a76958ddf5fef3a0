/** The migration that splits `users.name` into a first and a last name, and
    its inverse. */
module NameMigration {
  import opened Wrappers
  import opened PyStr

  // ----- One row -----

  /** `name.split(maxsplit=1)` into columns; None where `parts[0]` raises. */
  function Split(name: string): Option<(string, string)> {
    var parts := SplitOnce(name);
    if parts == [] then None else Some((parts[0], if |parts| > 1 then parts[1] else ""))
  }

  /** `f"{first_name} {last_name}".strip()` */
  function Join(first: string, last: string): string { Strip(first + " " + last) }

  // ----- Reference: the shape of a name -----

  /** A name taken apart: outer whitespace, the first word, the whitespace run
      behind it, and the rest, which is empty or bordered by no whitespace. */
  datatype Shape = Shape(lead: string, word: string, gap: string, rest: string, trail: string) {
    predicate Ok() {
      && Blank(lead) && Blank(gap) && Blank(trail)
      && word != "" && NoSpace(word)
      && (if rest == "" then gap == "" else gap != "" && Trimmed(rest))
    }

    function Text(): string { lead + word + gap + rest + trail }

    /** What ends up in the last name: the rest, with trailing whitespace kept. */
    function Last(): string { if rest == "" then "" else rest + trail }

    /** The name stripped, with its first whitespace run collapsed to one space. */
    function Collapsed(): string { if rest == "" then word else word + " " + rest }
  }

  lemma WordAndRest(body: string) returns (word: string, gap: string, rest: string)
    requires Trimmed(body)
    ensures body == word + gap + rest && word != "" && NoSpace(word) && Blank(gap)
    ensures if rest == "" then gap == "" else gap != "" && Trimmed(rest)
  {
    word := Word(body);
    var tail := body[|word|..];
    gap := TrimLeftSplits(tail);
    rest := TrimLeft(tail);
    assert body == word + tail;
    assert rest != "" ==> rest[|rest| - 1] == body[|body| - 1];
  }

  lemma ShapeOfBody(lead: string, body: string, trail: string) returns (s: Shape)
    requires Blank(lead) && Trimmed(body) && Blank(trail)
    ensures s.Ok() && s.Text() == lead + body + trail && s.trail == trail
  {
    var word, gap, rest := WordAndRest(body);
    s := Shape(lead, word, gap, rest, trail);
    assert lead + word + gap + rest == lead + (word + gap + rest);
  }

  /** Every name with a non-space character has a shape. */
  lemma HasShape(name: string) returns (s: Shape)
    requires !Blank(name)
    ensures s.Ok() && s.Text() == name
  {
    var lead := TrimLeftSplits(name);
    var t := TrimLeft(name);
    var trail := TrimRightSplits(t);
    var body := TrimRight(t);
    assert name == lead + body + trail;
    assert body[0] == t[0];
    s := ShapeOfBody(lead, body, trail);
  }

  lemma JoinCollapses(s: Shape)
    requires s.Ok()
    ensures Join(s.word, s.Last()) == s.Collapsed()
  {
    if s.rest == "" {
      assert s.word + " " + "" == "" + s.word + " ";
      StripGives("", s.word, " ");
    } else {
      assert s.word + " " + (s.rest + s.trail) == "" + (s.word + " " + s.rest) + s.trail;
      StripGives("", s.word + " " + s.rest, s.trail);
    }
  }

  lemma SplitOnceOfShape(s: Shape)
    requires s.Ok()
    ensures SplitOnce(s.Text()) == if s.rest == "" then [s.word] else [s.word, s.Last()]
  {
    if s.rest == "" {
      SplitOnceGives(s.lead, s.word, s.trail, "");
      assert s.Text() == s.lead + s.word + s.trail + "";
    } else {
      SplitOnceGives(s.lead, s.word, s.gap, s.rest + s.trail);
      assert s.Text() == s.lead + s.word + s.gap + (s.rest + s.trail);
    }
  }

  lemma SplitOfShape(s: Shape)
    requires s.Ok()
    ensures Split(s.Text()) == Some((s.word, s.Last()))
  {
    SplitOnceOfShape(s);
  }

  /** Splitting a name and joining it again strips it and collapses its first
      whitespace run to one space. */
  lemma JoinAfterSplit(s: Shape)
    requires s.Ok()
    ensures Split(s.Text()).Some? && Join(Split(s.Text()).value.0, Split(s.Text()).value.1) == s.Collapsed()
  {
    SplitOfShape(s);
    JoinCollapses(s);
  }

  lemma CollapsedShape(s: Shape) returns (c: Shape)
    requires s.Ok()
    ensures c.Ok() && c.Text() == s.Collapsed() == c.Collapsed()
  {
    c := Shape("", s.word, if s.rest == "" then "" else " ", s.rest, "");
  }

  /** Doing it twice changes nothing more. */
  lemma CollapsingIsIdempotent(s: Shape)
    requires s.Ok()
    ensures var p := Split(s.Collapsed());
      p.Some? && Join(p.value.0, p.value.1) == s.Collapsed()
  {
    var c := CollapsedShape(s);
    JoinAfterSplit(c);
  }

  /** The split raises exactly on names without a non-space character. */
  lemma SplitRaisesExactly(name: string)
    ensures Split(name) == None <==> Blank(name)
  {
    if Blank(name) {
      TrimLeftDrops(name, "");
      assert name + "" == name;
    } else {
      var s := HasShape(name);
      SplitOfShape(s);
    }
  }

  lemma SplitUndoesJoin(first: string, last: string)
    requires first != "" && NoSpace(first) && (last == "" || Trimmed(last))
    ensures Split(Join(first, last)) == Some((first, last))
  {
    var s := Shape("", first, if last == "" then "" else " ", last, "");
    assert last + "" == last;
    assert s.Last() == last;
    JoinCollapses(s);
    SplitOfShape(s);
    assert s.Text() == s.Collapsed();
  }

  lemma SplitOfTrimmed(name: string)
    requires Trimmed(name)
    ensures Split(name).Some?
    ensures var (first, last) := Split(name).value;
      first != "" && NoSpace(first) && (last == "" || Trimmed(last))
  {
    var s := ShapeOfBody("", name, "");
    assert "" + name + "" == name;
    SplitOfShape(s);
    assert s.rest + "" == s.rest;
  }

  /** Joining and splitting again gives the columns back exactly when the first
      name is one word and the last name has no outer whitespace. */
  lemma SplitAfterJoin(first: string, last: string)
    ensures Split(Join(first, last)) == Some((first, last)) <==>
      first != "" && NoSpace(first) && (last == "" || Trimmed(last))
  {
    if first != "" && NoSpace(first) && (last == "" || Trimmed(last)) {
      SplitUndoesJoin(first, last);
    } else if Join(first, last) == "" {
      SplitRaisesExactly("");
    } else {
      JoinIsTrimmed(first, last);
      SplitOfTrimmed(Join(first, last));
    }
  }

  lemma JoinIsTrimmed(first: string, last: string)
    ensures Join(first, last) != "" ==> Trimmed(Join(first, last))
  {
    var t := TrimLeft(first + " " + last);
    var lead := TrimLeftSplits(first + " " + last);
    var trail := TrimRightSplits(t);
    if Join(first, last) != "" {
      assert Join(first, last)[0] == t[0];
    }
  }

  lemma SplitFits(name: string)
    requires Split(name).Some?
    ensures |Split(name).value.0| + |Split(name).value.1| <= |name|
  {
    SplitRaisesExactly(name);
    var s := HasShape(name);
    SplitOfShape(s);
  }

  // ----- All rows -----

  /** A row while all three name columns exist; `other` is every other column. */
  datatype Row<T> = Row(name: Option<string>, first: Option<string>, last: Option<string>, other: T)

  const MAX_LENGTH: nat := 200

  predicate NamedRow<T>(r: Row<T>) {
    r.name.Some? && |r.name.value| <= MAX_LENGTH && r.first.None? && r.last.None?
  }

  predicate HalvedRow<T>(r: Row<T>) {
    r.name.None? && r.first.Some? && |r.first.value| <= MAX_LENGTH && r.last.Some? && |r.last.value| <= MAX_LENGTH
  }

  /** The schema before the migration, and the one after it. */
  predicate Named<T>(rows: map<nat, Row<T>>) { forall id :: id in rows ==> NamedRow(rows[id]) }

  predicate Halved<T>(rows: map<nat, Row<T>>) { forall id :: id in rows ==> HalvedRow(rows[id]) }

  /** The UPDATE of the upgrade loop, before the old column is dropped; None
      where it raises. */
  function FillHalves<T>(r: Row<T>): Option<Row<T>> {
    if r.name.None? || Split(r.name.value).None? then None
    else
      var p := Split(r.name.value).value;
      Some(r.(first := Some(p.0), last := Some(p.1)))
  }

  /** The UPDATE of the downgrade loop; None where the name is too long for the column. */
  function FillName<T>(r: Row<T>): Option<Row<T>> {
    if r.first.None? || r.last.None? || |Join(r.first.value, r.last.value)| > MAX_LENGTH then None
    else Some(r.(name := Some(Join(r.first.value, r.last.value))))
  }

  predicate AllDo<T>(rows: map<nat, Row<T>>, update: Row<T> -> Option<Row<T>>) {
    forall id :: id in rows ==> update(rows[id]).Some?
  }

  function SplitRows<T>(rows: map<nat, Row<T>>): map<nat, Row<T>>
    requires AllDo(rows, FillHalves)
  {
    map id | id in rows :: FillHalves(rows[id]).value.(name := None)
  }

  function JoinRows<T>(rows: map<nat, Row<T>>): map<nat, Row<T>>
    requires AllDo(rows, FillName)
  {
    map id | id in rows :: FillName(rows[id]).value.(first := None, last := None)
  }

  class Users<T> {
    var rows: map<nat, Row<T>>

    constructor (rows: map<nat, Row<T>>)
      ensures this.rows == rows
    {
      this.rows := rows;
    }

    /** The loop of both directions: one UPDATE a row, in whatever order the
        database returns them. It works on the transaction's copy; the first
        exception gives it up. */
    method UpdateEach(update: Row<T> -> Option<Row<T>>) returns (work: Option<map<nat, Row<T>>>)
      ensures work.Some? <==> AllDo(rows, update)
      ensures work.Some? ==> work.value.Keys == rows.Keys
      ensures work.Some? ==> forall id :: id in rows ==> work.value[id] == update(rows[id]).value
    {
      var copy := rows;
      var ids := rows.Keys;
      while ids != {}
        invariant ids <= rows.Keys && copy.Keys == rows.Keys
        invariant forall id :: id in ids ==> copy[id] == rows[id]
        invariant forall id :: id in rows && id !in ids ==> update(rows[id]) == Some(copy[id])
        decreases |ids|
      {
        var id :| id in ids;
        var row := update(copy[id]);
        if row.None? {
          return None;
        }
        copy := copy[id := row.value];
        ids := ids - {id};
      }
      work := Some(copy);
    }

    /** The upgrade; an exception rolls the transaction back. */
    method Upgrade() returns (ok: bool)
      requires Named(rows)
      modifies this
      ensures ok <==> AllDo(old(rows), FillHalves)
      ensures ok ==> rows == SplitRows(old(rows))
      ensures !ok ==> rows == old(rows)
    {
      var work := UpdateEach(FillHalves);
      ok := work.Some?;
      if ok {
        rows := map id | id in work.value :: work.value[id].(name := None);
      }
    }

    /** The downgrade; a name too long for the column rolls the transaction back. */
    method Downgrade() returns (ok: bool)
      requires Halved(rows)
      modifies this
      ensures ok <==> AllDo(old(rows), FillName)
      ensures ok ==> rows == JoinRows(old(rows))
      ensures !ok ==> rows == old(rows)
    {
      var work := UpdateEach(FillName);
      ok := work.Some?;
      if ok {
        rows := map id | id in work.value :: work.value[id].(first := None, last := None);
      }
    }

    /** An upgrade taken back: once the upgrade went through, so does the downgrade. */
    method UpgradeAndDowngrade() returns (up: bool, down: bool)
      requires Named(rows)
      modifies this
      ensures up <==> forall id :: id in old(rows) ==> !Blank(old(rows)[id].name.value)
      ensures up <==> down
      ensures rows.Keys == old(rows).Keys && Named(rows)
      ensures forall id :: id in rows ==> rows[id].other == old(rows)[id].other
      ensures forall id, s: Shape :: id in rows && s.Ok() && s.Text() == old(rows)[id].name.value ==>
        rows[id].name.value == if down then s.Collapsed() else s.Text()
    {
      ghost var before := rows;
      UpgradeRaisesExactly(rows);
      up := Upgrade();
      down := up;
      if up {
        RowsComeBack(before);
        down := Downgrade();
      }
    }
  }

  /** The upgrade goes through exactly when no name is blank. */
  lemma UpgradeRaisesExactly<T>(rows: map<nat, Row<T>>)
    requires Named(rows)
    ensures AllDo(rows, FillHalves) <==> forall id :: id in rows ==> !Blank(rows[id].name.value)
  {
    forall id | id in rows ensures FillHalves(rows[id]).Some? <==> !Blank(rows[id].name.value) {
      SplitRaisesExactly(rows[id].name.value);
    }
  }

  lemma RowRoundTrip<T>(r: Row<T>, s: Shape)
    requires NamedRow(r) && FillHalves(r).Some? && s.Ok() && s.Text() == r.name.value
    ensures var h := FillHalves(r).value.(name := None);
      && HalvedRow(h) && h == Row(None, Some(s.word), Some(s.Last()), r.other)
      && FillName(h) == Some(Row(Some(s.Collapsed()), h.first, h.last, r.other))
  {
    SplitOfShape(s);
    SplitFits(r.name.value);
    RowFits(r.name.value);
    JoinAfterSplit(s);
  }

  /** Joining any two columns strips the outer whitespace off both with a space between. */
  lemma JoinStrips(first: string, last: string) returns (lead: string, trail: string)
    ensures first + " " + last == lead + Join(first, last) + trail && Blank(lead) && Blank(trail)
    ensures Join(first, last) != "" ==> Trimmed(Join(first, last))
  {
    lead := TrimLeftSplits(first + " " + last);
    trail := TrimRightSplits(TrimLeft(first + " " + last));
    JoinIsTrimmed(first, last);
  }

  /** The one text that remains of `text` without its outer whitespace. */
  ghost predicate Stripped(text: string, core: string) {
    exists lead, trail :: text == lead + core + trail && Blank(lead) && Blank(trail) && (core == "" || Trimmed(core))
  }

  /** A downgrade of any rows, also edited ones, goes through exactly when every
      stripped name fits its column, and then stores that name and keeps every
      other column. */
  lemma DowngradeExactly<T>(rows: map<nat, Row<T>>)
    requires Halved(rows)
    ensures AllDo(rows, FillName) <==> forall id, name: string ::
      id in rows && Stripped(rows[id].first.value + " " + rows[id].last.value, name) ==> |name| <= MAX_LENGTH
    ensures AllDo(rows, FillName) ==> JoinRows(rows).Keys == rows.Keys
    ensures AllDo(rows, FillName) ==> forall id :: id in rows ==>
      var row := JoinRows(rows)[id];
      && row == Row(row.name, None, None, rows[id].other) && row.name.Some?
      && Stripped(rows[id].first.value + " " + rows[id].last.value, row.name.value)
  {
    forall id, name: string | id in rows ensures Stripped(rows[id].first.value + " " + rows[id].last.value, name)
        <==> name == Join(rows[id].first.value, rows[id].last.value)
    {
      StrippedIsJoin(rows[id].first.value, rows[id].last.value, name);
    }
  }

  lemma StripIsOnly(lead: string, core: string, trail: string)
    requires Blank(lead) && Blank(trail) && (core == "" || Trimmed(core))
    ensures Strip(lead + core + trail) == core
  {
    if core == "" {
      assert lead + core + trail == (lead + trail) + "";
      TrimLeftDrops(lead + trail, "");
    } else {
      StripGives(lead, core, trail);
    }
  }

  lemma StrippedIsJoin(first: string, last: string, name: string)
    ensures Stripped(first + " " + last, name) <==> name == Join(first, last)
  {
    var text := first + " " + last;
    if Stripped(text, name) {
      var lead, trail :| text == lead + name + trail && Blank(lead) && Blank(trail) && (name == "" || Trimmed(name));
      StripIsOnly(lead, name, trail);
    }
    var lead, trail := JoinStrips(first, last);
  }

  /** What an upgrade leaves fits the new columns: the first word of the name,
      and what follows the whitespace behind it. */
  lemma UpgradeExactly<T>(rows: map<nat, Row<T>>)
    requires Named(rows) && AllDo(rows, FillHalves)
    ensures Halved(SplitRows(rows)) && SplitRows(rows).Keys == rows.Keys
    ensures forall id, s: Shape :: id in rows && s.Ok() && s.Text() == rows[id].name.value ==>
      SplitRows(rows)[id] == Row(None, Some(s.word), Some(s.Last()), rows[id].other)
  {
    forall id | id in rows ensures HalvedRow(SplitRows(rows)[id]) {
      SplitRaisesExactly(rows[id].name.value);
      var s := HasShape(rows[id].name.value);
      RowRoundTrip(rows[id], s);
    }
    forall id, s: Shape | id in rows && s.Ok() && s.Text() == rows[id].name.value
      ensures SplitRows(rows)[id] == Row(None, Some(s.word), Some(s.Last()), rows[id].other)
    {
      RowRoundTrip(rows[id], s);
    }
  }

  /** A downgrade can follow: it goes through, loses no row, keeps every other
      column and collapses every name. */
  lemma RowsRoundTrip<T>(rows: map<nat, Row<T>>)
    requires Named(rows) && AllDo(rows, FillHalves)
    ensures Halved(SplitRows(rows)) && AllDo(SplitRows(rows), FillName)
    ensures var back := JoinRows(SplitRows(rows));
      && back.Keys == rows.Keys
      && forall id, s: Shape :: id in rows && s.Ok() && s.Text() == rows[id].name.value ==>
        back[id] == Row(Some(s.Collapsed()), None, None, rows[id].other)
  {
    UpgradeExactly(rows);
    forall id | id in rows ensures FillName(SplitRows(rows)[id]).Some? {
      RowFits(rows[id].name.value);
    }
    forall id, s: Shape | id in rows && s.Ok() && s.Text() == rows[id].name.value
      ensures JoinRows(SplitRows(rows))[id] == Row(Some(s.Collapsed()), None, None, rows[id].other)
    {
      RowRoundTrip(rows[id], s);
    }
  }

  lemma RowsComeBack<T>(rows: map<nat, Row<T>>)
    requires Named(rows) && AllDo(rows, FillHalves)
    ensures Halved(SplitRows(rows)) && AllDo(SplitRows(rows), FillName)
    ensures var back := JoinRows(SplitRows(rows));
      && back.Keys == rows.Keys && Named(back) && (forall id :: id in rows ==> back[id].other == rows[id].other)
      && forall id, s: Shape :: id in rows && s.Ok() && s.Text() == rows[id].name.value ==> back[id].name.value == s.Collapsed()
  {
    RowsRoundTrip(rows);
  }

  lemma RowFits(name: string)
    requires Split(name).Some?
    ensures |Join(Split(name).value.0, Split(name).value.1)| <= |name|
  {
    SplitRaisesExactly(name);
    var s := HasShape(name);
    JoinAfterSplit(s);
  }
}
