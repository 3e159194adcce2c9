/** The file that conf_write prints, line by line. */
module KconfigFile {
  import opened Basics
  import opened KconfigExpr
  import opened KconfigValues
  import opened KconfigText

  /** The symbol hash: every symbol is found under its own name. */
  datatype Book = Book(names: map<Symbol, string>, hash: map<string, Symbol>)

  ghost predicate BookOk(c: Config, book: Book) {
    forall s :: s in c.table ==>
      && s in book.names && NameOk(book.names[s])
      && book.names[s] in book.hash && book.hash[book.names[s]] == s
  }

  /** What the menu entries in pre-order have conf_write print: a heading for an
      entry without symbol, and otherwise the symbol's value. */
  datatype Item = Heading(title: string, visible: Option<Expr>) | Setting(s: Symbol)

  /** A line of the file, and whose value it tells. */
  datatype Row = Row(text: string, owner: Option<Symbol>)

  function Plain(text: string): Row {
    Row(text, None)
  }

  /** The rows for one menu entry; a heading is printed when it is visible. */
  function ItemRows(book: Book, item: Item, env: Env): seq<Row>
    requires item.Setting? ==> item.s in book.names
  {
    match item
    case Heading(title, visible) =>
      if ValueOpt(visible, env) == 0 then [] else [Plain("\n"), Plain("#\n"), Plain("# " + title + "\n"), Plain("#\n")]
    case Setting(s) => [Row(Entry(book.names[s], env.tri(s)), Some(s))]
  }

  const GENERATED: string := "Automatically generated " + "make config: don't edit\n"

  function Banner(): seq<Row> {
    [Plain("#\n"), Plain("# " + GENERATED), Plain("# " + "Project version: \n")]
  }

  ghost predicate Known(book: Book, items: seq<Item>) {
    forall s :: Setting(s) in items ==> s in book.names
  }

  /** The whole file. */
  function Rows(book: Book, items: seq<Item>, env: Env): seq<Row>
    requires Known(book, items)
  {
    if items == [] then Banner()
    else Rows(book, items[..|items| - 1], env) + ItemRows(book, items[|items| - 1], env)
  }

  function Texts(rows: seq<Row>): (texts: seq<string>)
    ensures |texts| == |rows| && forall i :: 0 <= i < |rows| ==> texts[i] == rows[i].text
  {
    seq(|rows|, i requires 0 <= i < |rows| => rows[i].text)
  }

  function Lines(book: Book, items: seq<Item>, env: Env): seq<string>
    requires Known(book, items)
  {
    Texts(Rows(book, items, env))
  }

  lemma LinesNext(book: Book, items: seq<Item>, env: Env, i: nat)
    requires Known(book, items) && i < |items|
    ensures Lines(book, items[..i + 1], env) == Lines(book, items[..i], env) + Texts(ItemRows(book, items[i], env))
  {
    assert items[..i + 1][..i] == items[..i];
  }

  /** The symbols that the rows tell about, in their order. */
  function Owners(rows: seq<Row>): seq<Symbol> {
    if rows == [] then []
    else Owners(rows[..|rows| - 1]) + OwnerOf(rows[|rows| - 1])
  }

  function OwnerOf(row: Row): seq<Symbol> {
    if row.owner.Some? then [row.owner.value] else []
  }

  lemma OwnersNext(rows: seq<Row>, i: nat)
    requires i < |rows|
    ensures Owners(rows[..i + 1]) == Owners(rows[..i]) + OwnerOf(rows[i]) && rows[..|rows|] == rows
  {
    assert rows[..i + 1][..i] == rows[..i];
  }

  lemma {:induction false} OwnersPrefix(rows: seq<Row>, i: nat)
    requires i <= |rows|
    ensures Owners(rows[..i]) <= Owners(rows)
  {
    if i == |rows| {
      assert rows[..i] == rows;
    } else {
      var n := |rows| - 1;
      OwnersPrefix(rows[..n], i);
      assert rows[..n][..i] == rows[..i];
    }
  }

  lemma OwnersAppend(rows: seq<Row>, row: Row)
    ensures Owners(rows + [row]) == Owners(rows) + OwnerOf(row)
  {
    assert (rows + [row])[..|rows|] == rows;
  }

  lemma {:induction false} OwnerListed(rows: seq<Row>, row: Row)
    requires row in rows && row.owner.Some?
    ensures row.owner.value in Owners(rows)
  {
    if row in rows[..|rows| - 1] {
      OwnerListed(rows[..|rows| - 1], row);
    }
  }

  lemma {:induction false} NoOwners(rows: seq<Row>)
    requires forall row :: row in rows ==> row.owner.None?
    ensures Owners(rows) == []
  {
    if rows != [] {
      NoOwners(rows[..|rows| - 1]);
    }
  }

  /** The symbols among the menu entries. */
  function Settings(items: seq<Item>): seq<Symbol> {
    if items == [] then []
    else Settings(items[..|items| - 1]) + SettingOf(items[|items| - 1])
  }

  function SettingOf(item: Item): seq<Symbol> {
    if item.Setting? then [item.s] else []
  }

  lemma {:induction false} SettingsAre(items: seq<Item>)
    ensures forall s :: s in Settings(items) <==> Setting(s) in items
  {
    if items != [] {
      SettingsAre(items[..|items| - 1]);
    }
  }

  lemma {:induction false} FileOwners(book: Book, items: seq<Item>, env: Env)
    requires Known(book, items)
    ensures Owners(Rows(book, items, env)) == Settings(items)
  {
    if items == [] {
      NoOwners(Banner());
    } else {
      var n := |items| - 1;
      FileOwners(book, items[..n], env);
      ItemOwners(Rows(book, items[..n], env), book, items[n], env);
    }
  }

  lemma ItemOwners(rows: seq<Row>, book: Book, item: Item, env: Env)
    requires item.Setting? ==> item.s in book.names
    ensures Owners(rows + ItemRows(book, item, env)) == Owners(rows) + SettingOf(item)
  {
    var more := ItemRows(book, item, env);
    if item.Setting? {
      OwnersAppend(rows, more[0]);
    } else if more == [] {
      assert rows + more == rows;
    } else {
      OwnersAppend(rows, more[0]);
      OwnersAppend(rows + [more[0]], more[1]);
      OwnersAppend(rows + [more[0]] + [more[1]], more[2]);
      OwnersAppend(rows + [more[0]] + [more[1]] + [more[2]], more[3]);
      assert rows + more == rows + [more[0]] + [more[1]] + [more[2]] + [more[3]];
    }
  }

  /** What the reader has to know of a row. */
  ghost predicate RowOk(book: Book, row: Row, env: Env) {
    match row.owner
    case Some(s) => s in book.names && row.text == Entry(book.names[s], env.tri(s))
    case None => ParseLine(row.text).Nothing?
  }

  /** No heading is taken for a setting. */
  ghost predicate PlainTitles(items: seq<Item>) {
    forall item :: item in items && item.Heading? ==> '\n' !in item.title && !ReadsAsSetting(item.title)
  }

  lemma CommentSkipped(text: string)
    requires text != "" && text[0] != 'C'
    ensures ParseLine("# " + text).Nothing?
  {
    assert ("# " + text)[2..] == text;
  }

  lemma BannerOk()
    ensures forall row :: row in Banner() ==> row.owner.None? && ParseLine(row.text).Nothing?
  {
    CommentSkipped(GENERATED);
    CommentSkipped("Project version: \n");
    assert forall row :: row in Banner() ==> row == Banner()[0] || row == Banner()[1] || row == Banner()[2];
  }

  lemma {:induction false} RowsOk(book: Book, items: seq<Item>, env: Env)
    requires Known(book, items) && PlainTitles(items)
    ensures forall row :: row in Rows(book, items, env) ==> RowOk(book, row, env)
  {
    if items != [] {
      var n := |items| - 1;
      RowsOk(book, items[..n], env);
      ItemRowsOk(book, items[n], env);
    } else {
      BannerOk();
    }
  }

  lemma ItemRowsOk(book: Book, item: Item, env: Env)
    requires item.Setting? ==> item.s in book.names
    requires item.Heading? ==> '\n' !in item.title && !ReadsAsSetting(item.title)
    ensures forall row :: row in ItemRows(book, item, env) ==> RowOk(book, row, env)
  {
    if item.Heading? {
      TitleIgnored(item.title);
    }
  }

  /** A heading is in the file, as an empty line and a comment of three, exactly when its
      condition is not n; one without condition always is. */
  lemma HeadingShown(book: Book, items: seq<Item>, title: string, visible: Option<Expr>, env: Env)
    requires Known(book, items)
    ensures var more := items + [Heading(title, visible)];
            && Known(book, more)
            && Lines(book, more, env) == Lines(book, items, env)
             + if visible.None? || Value(visible.value, env) != 0 then ["\n", "#\n", "# " + title + "\n", "#\n"] else []
  {
    var more := items + [Heading(title, visible)];
    assert Known(book, more);
    LinesNext(book, more, env, |items|);
    assert more[..|items| + 1] == more && more[..|items|] == items;
  }
}
