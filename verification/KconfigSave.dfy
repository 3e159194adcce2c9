/** Saving the configuration and reading it back. */
module KconfigSave {
  import opened Basics
  import opened KconfigExpr
  import opened KconfigDeps
  import opened KconfigValues
  import opened KconfigCalc
  import opened KconfigText
  import opened KconfigFile

  lemma TakeNext(syms: seq<Symbol>, i: nat)
    requires i < |syms|
    ensures syms[..i + 1] == syms[..i] + [syms[i]] && syms[..|syms|] == syms
  {
  }

  /** The symbols of the menu entries: all that have a value to calculate. */
  ghost predicate Covers(c: Config, syms: seq<Symbol>) {
    (forall s :: s in c.table ==> s in syms) && (forall s :: s in syms ==> s in c.table)
  }

  lemma CoveredKnown(c: Config, book: Book, items: seq<Item>)
    requires BookOk(c, book) && Covers(c, Settings(items))
    ensures Known(book, items) && forall s :: Setting(s) in items ==> s in c.table
  {
    SettingsAre(items);
  }

  /** conf_write: the values calculated anew unless something has changed. */
  method ConfWrite(st: Symbols, book: Book, items: seq<Item>, changed: bool, ghost env: Env)
      returns (file: seq<string>)
    requires st.Valid(env) && st.busy == {} && BookOk(st.c, book)
    requires Covers(st.c, Settings(items)) && Known(book, items)
    modifies st
    ensures st.Valid(env) && st.busy == {} && st.userTri == old(st.userTri) && st.isNew == old(st.isNew)
    ensures file == Lines(book, items, env)
  {
    CoveredKnown(st.c, book, items);
    if !changed {
      ClearAllValid(st, env);
    }
    file := Texts(Banner());
    var i := 0;
    while i < |items|
      invariant i <= |items| && st.Valid(env) && st.busy == {}
      invariant st.userTri == old(st.userTri) && st.isNew == old(st.isNew)
      invariant file == Lines(book, items[..i], env)
    {
      LinesNext(book, items, env, i);
      var block := WriteItem(st, book, items[i], env);
      file := file + block;
      i := i + 1;
    }
    assert items[..i] == items;
  }

  method WriteItem(st: Symbols, book: Book, item: Item, ghost env: Env) returns (block: seq<string>)
    requires st.Valid(env) && st.busy == {} && (item.Setting? ==> item.s in st.c.table && item.s in book.names)
    modifies st
    ensures st.Valid(env) && st.busy == {} && st.userTri == old(st.userTri) && st.isNew == old(st.isNew)
    ensures block == Texts(ItemRows(book, item, env))
  {
    match item
    case Heading(title, visible) =>
      var shown := st.CalcExprOpt(visible, env, |st.order|);
      block := if shown == 0 then [] else ["\n", "#\n", "# " + title + "\n", "#\n"];
    case Setting(s) =>
      var line := WriteSymbol(st, book, s, env);
      block := [line];
  }

  method WriteSymbol(st: Symbols, book: Book, s: Symbol, ghost env: Env) returns (line: string)
    requires st.Valid(env) && st.busy == {} && s in st.c.table && s in book.names
    modifies st
    ensures st.Valid(env) && st.busy == {} && st.userTri == old(st.userTri) && st.isNew == old(st.isNew)
    ensures line == Entry(book.names[s], env.tri(s))
  {
    st.CalcValue(s, env);
    line := Entry(book.names[s], st.curr[s]);
    ClearWrite(st, s, env);
  }

  method ClearWrite(st: Symbols, s: Symbol, ghost env: Env)
    requires st.Valid(env) && st.busy == {} && s in st.valid
    modifies st`write, st`stale
    ensures st.Valid(env)
  {
    st.write, st.stale := st.write - {s}, st.stale + {s};
  }

  /** sym_clear_all_valid; the modules symbol is not one of those calculated here. */
  method ClearAllValid(st: Symbols, ghost env: Env)
    requires st.Valid(env) && st.busy == {}
    modifies st`valid, st`stale
    ensures st.Valid(env) && st.valid == {}
  {
    st.valid, st.stale := {}, {};
  }

  // --- Reading ---

  /** What a line asks for. */
  datatype Request = Ignored | Warning | Gives(s: Symbol, v: Tri)

  function Asked(book: Book, isNew: set<Symbol>, line: string): Request {
    match ParseLine(line)
    case Nothing => Ignored
    case Unexpected => Warning
    case NotSet(name) =>
      if name !in book.hash || book.hash[name] !in isNew then Warning
      else if IsKind(book.hash[name], Boolean) || IsKind(book.hash[name], Tristate) then Gives(book.hash[name], 0)
      else Ignored
    case Set(name, value) =>
      if name !in book.hash || book.hash[name] !in isNew then Warning
      else if IsKind(book.hash[name], Tristate) && value != "" && value[0] == 'm' then Gives(book.hash[name], 1)
      else if IsKind(book.hash[name], Tristate) || IsKind(book.hash[name], Boolean) then
        if value != "" && value[0] == 'y' then Gives(book.hash[name], 2)
        else if value != "" && value[0] == 'n' then Gives(book.hash[name], 0)
        else Warning
      else Ignored
  }

  /** A saved line asks for just the value it was written for, the first time. */
  lemma EntryAsked(c: Config, book: Book, isNew: set<Symbol>, s: Symbol, v: Tri)
    requires Proper(c) && BookOk(c, book) && s in c.table && (v == 1 ==> IsKind(s, Tristate))
    ensures Asked(book, isNew, Entry(book.names[s], v)) == if s in isNew then Gives(s, v) else Warning
  {
    EntryParses(book.names[s], v);
  }

  lemma NoModuleForBoolean(c: Config, user: User, env: Env, s: Symbol)
    requires Proper(c) && Solves(c, user, env) && s in c.table
    ensures env.tri(s) == 1 ==> IsKind(s, Tristate)
  {
    assert env.tri(s) == Equation(c, user, s, env).tri;
  }

  /** What the symbols hold after the saved lines of some of them. */
  ghost predicate ReadSoFar(table: Table, userTri: map<Symbol, Tri>, isNew: set<Symbol>, done: seq<Symbol>, env: Env) {
    && userTri.Keys == table.Keys && isNew <= table.Keys
    && (forall s :: s in table ==> (s in isNew <==> s !in done))
    && (forall s :: s in done && s in table ==> userTri[s] == env.tri(s))
  }

  lemma ReadStep(table: Table, userTri: map<Symbol, Tri>, isNew: set<Symbol>, done: seq<Symbol>, env: Env, s: Symbol)
    requires ReadSoFar(table, userTri, isNew, done, env) && s in table
    ensures s in isNew ==> ReadSoFar(table, userTri[s := env.tri(s)], isNew - {s}, done + [s], env)
    ensures s !in isNew ==> ReadSoFar(table, userTri, isNew, done + [s], env)
  {
    assert forall t :: t in done + [s] <==> t in done || t == s;
  }

  ghost predicate Unrepeated(syms: seq<Symbol>) {
    forall i, j :: 0 <= i < j < |syms| ==> syms[i] != syms[j]
  }

  /** A symbol listed once is not met a second time. */
  lemma NewStill(rows: seq<Row>, i: nat)
    requires i < |rows|
    ensures Unrepeated(Owners(rows)) ==> forall s :: s in OwnerOf(rows[i]) ==> s !in Owners(rows[..i])
  {
    OwnersNext(rows, i);
    OwnersPrefix(rows, i + 1);
    var done := Owners(rows[..i]);
    if Unrepeated(Owners(rows)) && rows[i].owner.Some? {
      assert Owners(rows)[|done|] == rows[i].owner.value;
      assert forall k :: 0 <= k < |done| ==> done[k] == Owners(rows)[k];
    }
  }

  lemma ReadIsFaithful(c: Config, userTri: map<Symbol, Tri>, isNew: set<Symbol>, syms: seq<Symbol>, user: User,
      env: Env)
    requires ReadSoFar(c.table, userTri, isNew, syms, env) && Covers(c, syms) && Proper(c) && Solves(c, user, env)
    ensures Solves(c, map s | s in userTri && s !in isNew :: userTri[s], env)
    ensures Marked(c.table, userTri, isNew, [], c, user, env)
  {
    FaithfulSolves(c, user, env, map s | s in userTri && s !in isNew :: userTri[s]);
  }

  /** conf_read_simple on a file that conf_write made. */
  method ConfReadSimple(st: Symbols, book: Book, file: seq<string>, ghost items: seq<Item>, ghost env: Env)
      returns (warnings: nat)
    requires st.Valid(env) && st.busy == {} && BookOk(st.c, book) && PlainTitles(items)
    requires Covers(st.c, Settings(items)) && Known(book, items) && file == Lines(book, items, env)
    modifies st
    ensures st.Valid(env) && st.busy == {} && st.valid == {} && st.stale == {}
    ensures Marked(st.c.table, st.userTri, st.isNew, [], st.c, old(st.User()), env)
    ensures Unrepeated(Settings(items)) ==> warnings == 0
  {
    ghost var user := st.User();
    FileReadable(st.c, book, items, env);
    Forget(st, user, env);
    warnings := ReadLines(st, book, file, Rows(book, items, env), user, env);
    ReadIsFaithful(st.c, st.userTri, st.isNew, Settings(items), user, env);
    SettlesAnew(st, env);
  }

  /** All symbols new and to be calculated again. */
  method Forget(st: Symbols, ghost user: User, ghost env: Env)
    requires st.Valid(env) && st.busy == {} && st.User() == user
    modifies st`userTri, st`isNew, st`valid, st`stale
    ensures st.valid == {} && st.stale == {} && st.busy == {} && Proper(st.c) && Ordered(st.c, st.order)
    ensures Solves(st.c, user, env) && ReadSoFar(st.c.table, st.userTri, st.isNew, [], env)
  {
    st.isNew, st.valid, st.stale := st.c.table.Keys, {}, {};
    st.userTri := map s | s in st.c.table :: 0;
  }

  /** With nothing calculated, the values have to solve the equations only. */
  lemma SettlesAnew(st: Symbols, env: Env)
    requires st.valid == {} && st.stale == {} && st.busy == {} && Proper(st.c) && Ordered(st.c, st.order)
    requires Solves(st.c, st.User(), env)
    ensures st.Valid(env)
  {
  }

  /** The file consists of rows that the reader can make out. */
  ghost predicate Readable(c: Config, book: Book, file: seq<string>, rows: seq<Row>, env: Env) {
    && file == Texts(rows)
    && forall row :: row in rows ==> RowOk(book, row, env) && forall s :: s in OwnerOf(row) ==> s in c.table
  }

  lemma FileReadable(c: Config, book: Book, items: seq<Item>, env: Env)
    requires BookOk(c, book) && PlainTitles(items) && Covers(c, Settings(items)) && Known(book, items)
    ensures Readable(c, book, Lines(book, items, env), Rows(book, items, env), env)
    ensures Owners(Rows(book, items, env)) == Settings(items)
  {
    var rows := Rows(book, items, env);
    FileOwners(book, items, env);
    RowsOk(book, items, env);
    forall row | row in rows && row.owner.Some? ensures row.owner.value in c.table {
      OwnerListed(rows, row);
    }
  }

  method ReadLines(st: Symbols, book: Book, file: seq<string>, ghost rows: seq<Row>, ghost user: User, ghost env: Env)
    returns (warnings: nat)
    requires Proper(st.c) && Solves(st.c, user, env) && BookOk(st.c, book) && Covers(st.c, Owners(rows))
    requires Readable(st.c, book, file, rows, env) && ReadSoFar(st.c.table, st.userTri, st.isNew, [], env)
    modifies st`userTri, st`isNew
    ensures ReadSoFar(st.c.table, st.userTri, st.isNew, Owners(rows), env)
    ensures Unrepeated(Owners(rows)) ==> warnings == 0
  {
    warnings := 0;
    var i := 0;
    while i < |file|
      invariant i <= |file| && ReadSoFar(st.c.table, st.userTri, st.isNew, Owners(rows[..i]), env)
      invariant Unrepeated(Owners(rows)) ==> warnings == 0
    {
      OwnersNext(rows, i);
      NewStill(rows, i);
      var warned := ReadRow(st, book, file[i], rows[i], Owners(rows[..i]), user, env);
      warnings := warnings + if warned then 1 else 0;
      i := i + 1;
    }
    assert rows[..i] == rows;
  }

  method ReadRow(st: Symbols, book: Book, line: string, ghost row: Row, ghost done: seq<Symbol>, ghost user: User,
      ghost env: Env)
    returns (warned: bool)
    requires Proper(st.c) && Solves(st.c, user, env) && BookOk(st.c, book) && RowOk(book, row, env)
    requires line == row.text && (forall s :: s in OwnerOf(row) ==> s in st.c.table)
    requires ReadSoFar(st.c.table, st.userTri, st.isNew, done, env)
    modifies st`userTri, st`isNew
    ensures ReadSoFar(st.c.table, st.userTri, st.isNew, done + OwnerOf(row), env)
    ensures warned <==> exists s :: s in OwnerOf(row) && s in done
  {
    if row.owner.Some? {
      var s := row.owner.value;
      NoModuleForBoolean(st.c, user, env, s);
      EntryAsked(st.c, book, st.isNew, s, env.tri(s));
      ReadStep(st.c.table, st.userTri, st.isNew, done, env, s);
    } else {
      assert done + OwnerOf(row) == done;
    }
    warned := ReadLine(st, book, line);
  }

  /** One line of conf_read_simple. */
  method ReadLine(st: Symbols, book: Book, line: string) returns (warned: bool)
    modifies st`userTri, st`isNew
    ensures var r := Asked(book, old(st.isNew), line);
      && (warned <==> r.Warning?)
      && st.userTri == (if r.Gives? then old(st.userTri)[r.s := r.v] else old(st.userTri))
      && st.isNew == (if r.Gives? then old(st.isNew) - {r.s} else old(st.isNew))
  {
    warned := false;
    var p := ParseLine(line);
    if p.Unexpected? {
      return true;
    }
    if p.Nothing? {
      return;
    }
    if p.name !in book.hash || book.hash[p.name] !in st.isNew {
      return true;
    }
    var s := book.hash[p.name];
    if p.NotSet? {
      if IsKind(s, Boolean) || IsKind(s, Tristate) {
        st.userTri, st.isNew := st.userTri[s := 0], st.isNew - {s};
      }
    } else if IsKind(s, Tristate) && p.value != "" && p.value[0] == 'm' {
      st.userTri, st.isNew := st.userTri[s := 1], st.isNew - {s};
    } else if IsKind(s, Tristate) || IsKind(s, Boolean) {
      if p.value != "" && p.value[0] == 'y' {
        st.userTri, st.isNew := st.userTri[s := 2], st.isNew - {s};
      } else if p.value != "" && p.value[0] == 'n' {
        st.userTri, st.isNew := st.userTri[s := 0], st.isNew - {s};
      } else {
        warned := true;
      }
    }
  }

  // --- Reading back what was saved ---

  /** The user's values while conf_read goes over the symbols: those seen and found
      invisible count as new again. */
  ghost predicate Marked(table: Table, userTri: map<Symbol, Tri>, isNew: set<Symbol>, done: seq<Symbol>, c: Config,
      user: User, env: Env) {
    && c.table == table && userTri.Keys == table.Keys
    && (forall s :: s in table ==> userTri[s] == env.tri(s))
    && (forall s :: s in table ==> (s in isNew <==> s in done && Equation(c, user, s, env).visible == 0))
  }

  lemma MarkedIsFaithful(table: Table, userTri: map<Symbol, Tri>, isNew: set<Symbol>, done: seq<Symbol>, c: Config,
      user: User, env: Env)
    requires Marked(table, userTri, isNew, done, c, user, env) && Proper(c) && Solves(c, user, env)
    ensures var u: User := map s | s in userTri && s !in isNew :: userTri[s];
            Solves(c, u, env) && forall s :: s in table ==> Equation(c, u, s, env) == Equation(c, user, s, env)
  {
    FaithfulSolves(c, user, env, map s | s in userTri && s !in isNew :: userTri[s]);
  }

  lemma StaysMarked(table: Table, userTri: map<Symbol, Tri>, isNew: set<Symbol>, done: seq<Symbol>, c: Config,
      user: User, env: Env, s: Symbol)
    requires Marked(table, userTri, isNew, done, c, user, env) && s in table && Equation(c, user, s, env).visible != 0
    ensures Marked(table, userTri, isNew, done + [s], c, user, env)
  {
    assert forall t :: t in done + [s] <==> t in done || t == s;
  }

  /** Whether a symbol's value and what the file said about it disagree. */
  method Differs(st: Symbols, s: Symbol) returns (counted: bool)
    requires s in st.userTri && s in st.curr
    ensures counted <==>
      if s !in st.isNew && s in st.write then st.userTri[s] != st.curr[s] else (s in st.isNew <==> s in st.write)
  {
    var hasValue := s !in st.isNew;
    counted := true;
    if hasValue && s in st.write {
      if st.userTri[s] == st.curr[s] {
        counted := false;
      }
    } else if !hasValue && s !in st.write {
      counted := false;
    }
  }

  /** A calculated symbol holds what the equation of the saved values says. */
  lemma Reloaded(st: Symbols, s: Symbol, done: seq<Symbol>, user: User, env: Env)
    requires st.Valid(env) && st.busy == {} && st.stale == {} && s in st.c.table && s in st.valid
    requires Solves(st.c, user, env) && Marked(st.c.table, st.userTri, st.isNew, done, st.c, user, env)
    ensures Holds(st.View(), s, Equation(st.c, user, s, env)) && st.curr[s] == env.tri(s)
    ensures s in st.write <==> Equation(st.c, user, s, env).write
  {
    MarkedIsFaithful(st.c.table, st.userTri, st.isNew, done, st.c, user, env);
    assert Holds(st.View(), s, Equation(st.c, st.User(), s, env));
  }

  /** One turn of conf_read's loop. */
  method Reload(st: Symbols, s: Symbol, ghost done: seq<Symbol>, ghost user: User, ghost env: Env)
      returns (counted: bool)
    requires st.Valid(env) && st.busy == {} && st.stale == {} && s in st.c.table && s !in done
    requires Solves(st.c, user, env)
    requires Marked(st.c.table, st.userTri, st.isNew, done, st.c, user, env)
    modifies st
    ensures st.Valid(env) && st.busy == {} && st.stale == {}
    ensures Marked(st.c.table, st.userTri, st.isNew, done + [s], st.c, user, env)
    ensures s in st.valid && old(st.valid) <= st.valid
    ensures counted <==> !Equation(st.c, user, s, env).write
  {
    st.CalcValue(s, env);
    Reloaded(st, s, done, user, env);
    counted := Differs(st, s);
    Remark(st, s, done, user, env);
  }

  /** The part of it that looks at the visibility. */
  method Remark(st: Symbols, s: Symbol, ghost done: seq<Symbol>, ghost user: User, ghost env: Env)
    requires st.Valid(env) && st.busy == {} && s in st.c.table && s !in done && Solves(st.c, user, env)
    requires Marked(st.c.table, st.userTri, st.isNew, done, st.c, user, env)
    requires s in st.visible && st.visible[s] == Equation(st.c, user, s, env).visible
    modifies st`isNew
    ensures st.Valid(env) && Marked(st.c.table, st.userTri, st.isNew, done + [s], st.c, user, env)
  {
    if s !in st.isNew && st.visible[s] == 0 {
      MarkNew(st, s, done, user, env);
    } else {
      StaysMarked(st.c.table, st.userTri, st.isNew, done, st.c, user, env, s);
    }
  }

  /** A symbol that no prompt shows counts as new again; no value changes by that. */
  method MarkNew(st: Symbols, s: Symbol, ghost done: seq<Symbol>, ghost user: User, ghost env: Env)
    requires st.Valid(env) && st.busy == {} && s in st.c.table && s !in done && Solves(st.c, user, env)
    requires Marked(st.c.table, st.userTri, st.isNew, done, st.c, user, env)
    requires Equation(st.c, user, s, env).visible == 0
    modifies st`isNew
    ensures st.Valid(env) && Marked(st.c.table, st.userTri, st.isNew, done + [s], st.c, user, env)
  {
    MarkedIsFaithful(st.c.table, st.userTri, st.isNew, done, st.c, user, env);
    st.isNew := st.isNew + {s};
    assert forall t :: t in done + [s] <==> t in done || t == s;
    MarkedIsFaithful(st.c.table, st.userTri, st.isNew, done + [s], st.c, user, env);
  }

  /** The symbols that a save writes although nothing asks for it. */
  ghost function Idle(c: Config, user: User, among: seq<Symbol>, env: Env): set<Symbol> {
    set s | s in among && s in c.table && !Equation(c, user, s, env).write
  }

  lemma IdleNext(c: Config, user: User, all: seq<Symbol>, i: nat, env: Env)
    requires i < |all| && all[i] in c.table && Unrepeated(all)
    ensures |Idle(c, user, all[..i + 1], env)|
         == |Idle(c, user, all[..i], env)| + if Equation(c, user, all[i], env).write then 0 else 1
  {
    var now, next := Idle(c, user, all[..i], env), Idle(c, user, all[..i + 1], env);
    TakeNext(all, i);
    if Equation(c, user, all[i], env).write {
      assert next == now;
    } else {
      assert next == now + {all[i]};
    }
  }

  /** conf_read on a file that conf_write made: every symbol has its value again.
      What is counted as unsaved are the symbols that were saved without need. */
  method ConfRead(st: Symbols, book: Book, file: seq<string>, ghost items: seq<Item>, all: seq<Symbol>, ghost env: Env)
    returns (warnings: nat, unsaved: nat)
    requires st.Valid(env) && st.busy == {} && BookOk(st.c, book) && PlainTitles(items)
    requires Covers(st.c, Settings(items)) && Known(book, items) && file == Lines(book, items, env)
    requires Covers(st.c, all) && Unrepeated(all)
    modifies st
    ensures st.Valid(env) && st.busy == {}
    ensures forall s :: s in st.c.table ==> s in st.valid && s in st.curr && st.curr[s] == env.tri(s)
    ensures Marked(st.c.table, st.userTri, st.isNew, all, st.c, old(st.User()), env)
    ensures Unrepeated(Settings(items)) ==> warnings == 0
    ensures unsaved == |Idle(st.c, old(st.User()), all, env)|
  {
    ghost var user := st.User();
    warnings := ConfReadSimple(st, book, file, items, env);
    assert all[..0] == [] && all[..|all|] == all;
    unsaved := ReloadAll(st, all, user, env);
  }

  lemma NotYet(all: seq<Symbol>, i: nat)
    requires Unrepeated(all) && i < |all|
    ensures all[i] !in all[..i]
  {
  }

  /** conf_read's loop has been over the first i symbols. */
  ghost predicate ReloadedTo(st: Symbols, all: seq<Symbol>, i: nat, user: User, unsaved: nat, env: Env)
    reads st
  {
    && i <= |all| && st.Valid(env) && st.busy == {} && st.stale == {}
    && Covers(st.c, all) && Unrepeated(all) && Solves(st.c, user, env)
    && Marked(st.c.table, st.userTri, st.isNew, all[..i], st.c, user, env)
    && (forall j :: 0 <= j < i ==> all[j] in st.valid)
    && unsaved == |Idle(st.c, user, all[..i], env)|
  }

  method ReloadNext(st: Symbols, all: seq<Symbol>, i: nat, was: nat, ghost user: User, ghost env: Env)
      returns (unsaved: nat)
    requires i < |all| && ReloadedTo(st, all, i, user, was, env)
    modifies st
    ensures ReloadedTo(st, all, i + 1, user, unsaved, env)
  {
    IdleNext(st.c, user, all, i, env);
    TakeNext(all, i);
    NotYet(all, i);
    var counted := Reload(st, all[i], all[..i], user, env);
    unsaved := was + if counted then 1 else 0;
  }

  method ReloadAll(st: Symbols, all: seq<Symbol>, ghost user: User, ghost env: Env) returns (unsaved: nat)
    requires ReloadedTo(st, all, 0, user, 0, env)
    modifies st
    ensures ReloadedTo(st, all, |all|, user, unsaved, env)
  {
    unsaved := 0;
    var i := 0;
    while i < |all|
      invariant ReloadedTo(st, all, i, user, unsaved, env)
    {
      unsaved := ReloadNext(st, all, i, unsaved, user, env);
      i := i + 1;
    }
  }

  /** Saving, reading back and saving again gives the same file. */
  method SaveReloadSave(st: Symbols, book: Book, items: seq<Item>, all: seq<Symbol>, changed: bool, ghost env: Env)
    returns (first: seq<string>, second: seq<string>)
    requires st.Valid(env) && st.busy == {} && BookOk(st.c, book) && PlainTitles(items)
    requires Covers(st.c, Settings(items)) && Known(book, items) && Covers(st.c, all) && Unrepeated(all)
    modifies st
    ensures first == second == Lines(book, items, env)
  {
    first := ConfWrite(st, book, items, changed, env);
    var warnings, unsaved := ConfRead(st, book, first, items, all, env);
    second := ConfWrite(st, book, items, warnings != 0 || unsaved != 0, env);
  }

  /** Nothing asks for the symbol: no prompt, no default, nothing that selects it. */
  ghost predicate Unasked(d: Decl) {
    d.revDep.None? && forall p :: p in d.props ==> p.kind != Prompt && p.kind != Default
  }

  lemma {:induction false} NoPrompts(props: seq<Property>, env: Env)
    requires forall p :: p in props ==> p.kind != Prompt && p.kind != Default
    ensures PromptsValue(props, env) == 0
  {
    if props != [] {
      NoPrompts(props[..|props| - 1], env);
    }
  }

  lemma {:induction false} NoDefaults(props: seq<Property>, env: Env)
    requires forall p :: p in props ==> p.kind != Prompt && p.kind != Default
    ensures DefaultValue(props, env) == None
  {
    if props != [] {
      NoDefaults(props[1..], env);
    }
  }

  /** Such a symbol is saved all the same, and a reload reports a change. */
  lemma UnaskedIsIdle(c: Config, user: User, all: seq<Symbol>, env: Env, s: Symbol)
    requires s in all && s in c.table && Unasked(c.table[s])
    ensures s in Idle(c, user, all, env) && |Idle(c, user, all, env)| > 0
  {
    NoPrompts(c.table[s].props, env);
    NoDefaults(c.table[s].props, env);
    assert s in Idle(c, user, all, env);
  }

  // --- Setting a value ---

  /** sym_set_tristate_value.  If it succeeds, the symbol has the value from then on. */
  method SetTristate(st: Symbols, s: Symbol, v: Tri, ghost env: Env) returns (ok: bool, ghost after: Env)
    requires st.Valid(env) && st.busy == {} && s in st.c.table && s in st.valid
    modifies st
    ensures st.Valid(after) && st.busy == {}
    ensures ok <==> env.tri(s) == v || WithinRange(st.c, s, old(st.visible[s]), old(st.revTri[s]), v)
    ensures ok ==> st.User() == old(st.User())[s := v] && after.tri(s) == v
    ensures !ok || env.tri(s) == v ==> after == env
    ensures !ok ==> st.User() == old(st.User())
  {
    var oldval := st.curr[s];
    after := env;
    if oldval != v && !WithinRange(st.c, s, st.visible[s], st.revTri[s], v) {
      return false, after;
    }
    ok := true;
    ghost var user := st.User();
    st.isNew := st.isNew - {s};
    st.userTri := st.userTri[s := v];
    assert st.User() == user[s := v];
    if oldval != v {
      after := SolutionAfter(st.c, user, st.order, env, s, v);
      st.valid, st.stale := {}, {};
    } else {
      SetSame(st.c, user, env, s);
    }
  }

  lemma SolutionAfter(c: Config, user: User, order: seq<Symbol>, env: Env, s: Symbol, v: Tri) returns (after: Env)
    requires Proper(c) && Ordered(c, order) && Solves(c, user, env) && s in c.table
    ensures Solves(c, user[s := v], after)
    ensures var k := Equation(c, user, s, env); WithinRange(c, s, k.visible, k.revTri, v) ==> after.tri(s) == v
  {
    after := Solution(c, user[s := v], order, |order|);
    SolutionSolves(c, user[s := v], order);
    var i :| 0 <= i < |order| && order[i] == s;
    SetTakesEffect(c, user, order, env, after, i, v);
  }

  // --- What lines ask for ---

  /** The lines about a name, by what the name stands for. */
  lemma LinesAsk(book: Book, isNew: set<Symbol>, name: string, value: string)
    requires NameOk(name) && '\n' !in value
    ensures var off, on := "# CONFIG_" + name + " is not set\n", "CONFIG_" + name + "=" + value + "\n";
            if name !in book.hash || book.hash[name] !in isNew then
              Asked(book, isNew, off) == Warning && Asked(book, isNew, on) == Warning
            else
              var s := book.hash[name];
              if IsKind(s, Boolean) || IsKind(s, Tristate) then
                && Asked(book, isNew, off) == Gives(s, 0)
                && ("y" <= value ==> Asked(book, isNew, on) == Gives(s, 2))
                && ("n" <= value ==> Asked(book, isNew, on) == Gives(s, 0))
                && ("m" <= value ==> Asked(book, isNew, on) == if IsKind(s, Tristate) then Gives(s, 1) else Warning)
                && (value == "" || value[0] !in {'y', 'm', 'n'} ==> Asked(book, isNew, on) == Warning)
              else
                Asked(book, isNew, off) == Ignored && Asked(book, isNew, on) == Ignored
  {
    CommentParses(name, "\n");
    SettingParses(name, value);
    assert "# CONFIG_" + name + " is not set" + "\n" == "# CONFIG_" + name + " is not set\n";
  }
}
