/** The command-line controller of lab10/phone_book/phone_book.py, without
    the database: the UPDATE statement and parameter list that update_user
    builds from its three answers, and the menu loop of main, which reads
    one choice per iteration and dispatches it over a closed set of
    options. The statement is produced, not executed: the connection,
    cursor and PostgreSQL are not part of this model. */
module PhoneBook {

  datatype Option<T> = None | Some(value: T)

  // ---------------------------------------------------------------------
  // update_user
  // ---------------------------------------------------------------------

  /** The driver's positional placeholder. */
  const Placeholder: string := "%s"
  const NameClause: string := "user_name = " + Placeholder
  const PhoneClause: string := "phone_num = " + Placeholder
  const UpdatePrefix: string := "UPDATE phone_book SET "
  const UpdateSuffix: string := " WHERE user_id = " + Placeholder
  const NothingToUpdateWarning: string := "[WARN] Nothing to update."

  /** What update_user does: only warn, or execute `sql` with `params` and
      report `report`. */
  datatype UpdateOutcome =
    | NothingToUpdate(warning: string)
    | Executed(sql: string, params: seq<string>, report: string)

  /** ", ".join(parts), for any separator. */
  function Join(parts: seq<string>, sep: string): string
    decreases |parts|
  {
    if parts == [] then ""
    else if |parts| == 1 then parts[0]
    else parts[0] + sep + Join(parts[1..], sep)
  }

  /** The SET fragments, in the order update_user appends them. */
  function SetClauses(newName: string, newPhone: string): seq<string>
  {
    (if newName != "" then [NameClause] else []) +
    (if newPhone != "" then [PhoneClause] else [])
  }

  /** The values for the fragments' placeholders, in the same order. */
  function SetValues(newName: string, newPhone: string): seq<string>
  {
    (if newName != "" then [newName] else []) +
    (if newPhone != "" then [newPhone] else [])
  }

  /** The f-string of update_user. */
  function UpdateSql(fields: seq<string>): string
  {
    UpdatePrefix + Join(fields, ", ") + UpdateSuffix
  }

  /** update_user with its three answers as parameters: the user id, the
      new name and the new phone (each "" when left blank). */
  method UpdateUser(uid: string, newName: string, newPhone: string) returns (r: UpdateOutcome)
    ensures r.NothingToUpdate? <==> newName == "" && newPhone == ""
    ensures r.NothingToUpdate? ==> r.warning == NothingToUpdateWarning
    ensures r.Executed? ==>
              && r.sql == UpdateSql(SetClauses(newName, newPhone))
              && r.params == SetValues(newName, newPhone) + [uid]
              && r.report == "[OK] User " + uid + " updated."
  {
    var fields: seq<string>, params: seq<string> := [], [];
    if newName != "" {
      fields := fields + [NameClause];
      params := params + [newName];
    }
    if newPhone != "" {
      fields := fields + [PhoneClause];
      params := params + [newPhone];
    }
    if fields == [] {
      return NothingToUpdate(NothingToUpdateWarning);
    }
    var sql := UpdatePrefix + Join(fields, ", ") + UpdateSuffix;
    params := params + [uid];
    r := Executed(sql, params, "[OK] User " + uid + " updated.");
  }

  /** The name clause is present exactly when a name was given, the phone
      clause exactly when a phone was given, and the name clause always
      comes first. */
  lemma SetClausesShape(newName: string, newPhone: string)
    ensures var f := SetClauses(newName, newPhone);
            && (NameClause in f <==> newName != "")
            && (PhoneClause in f <==> newPhone != "")
            && |f| <= 2
            && (forall i, j :: 0 <= i < |f| && 0 <= j < |f| && f[i] == NameClause && f[j] == PhoneClause ==> i < j)
  {
    assert NameClause != PhoneClause by {
      assert NameClause[0] != PhoneClause[0];
    }
  }

  /** The parameters run parallel to the fields: the i-th value is the new
      name where the i-th fragment is the name clause and the new phone
      where it is the phone clause; the user id comes last, so there is
      exactly one more parameter than fragments. */
  lemma ParamsParallelFields(uid: string, newName: string, newPhone: string)
    ensures var f := SetClauses(newName, newPhone);
            var p := SetValues(newName, newPhone) + [uid];
            && |p| == |f| + 1
            && p[|p| - 1] == uid
            && (forall i :: 0 <= i < |f| && f[i] == NameClause ==> p[i] == newName)
            && (forall i :: 0 <= i < |f| && f[i] == PhoneClause ==> p[i] == newPhone)
  {
    assert NameClause != PhoneClause by {
      assert NameClause[0] != PhoneClause[0];
    }
  }

  /** The number of occurrences of `c` in `s`. */
  function Occurrences(s: string, c: char): nat
    decreases |s|
  {
    if s == [] then 0 else (if s[0] == c then 1 else 0) + Occurrences(s[1..], c)
  }

  lemma {:induction false} OccurrencesAppend(s: string, t: string, c: char)
    ensures Occurrences(s + t, c) == Occurrences(s, c) + Occurrences(t, c)
    decreases |s|
  {
    if s == [] {
      assert s + t == t;
    } else {
      assert (s + t)[1..] == s[1..] + t;
      OccurrencesAppend(s[1..], t, c);
    }
  }

  lemma {:induction false} OccurrencesJoin(parts: seq<string>, sep: string, c: char)
    requires Occurrences(sep, c) == 0
    ensures Occurrences(Join(parts, sep), c) == SumOccurrences(parts, c)
    decreases |parts|
  {
    if |parts| > 1 {
      OccurrencesJoin(parts[1..], sep, c);
      OccurrencesAppend(parts[0] + sep, Join(parts[1..], sep), c);
      OccurrencesAppend(parts[0], sep, c);
    } else if |parts| == 1 {
      assert SumOccurrences(parts[1..], c) == 0;
    }
  }

  function SumOccurrences(parts: seq<string>, c: char): nat
    decreases |parts|
  {
    if parts == [] then 0 else Occurrences(parts[0], c) + SumOccurrences(parts[1..], c)
  }

  lemma {:induction false} OccurrencesAbsent(s: string, c: char)
    requires c !in s
    ensures Occurrences(s, c) == 0
    decreases |s|
  {
    if s != [] {
      assert s[0] != c;
      OccurrencesAbsent(s[1..], c);
    }
  }

  lemma PlaceholderOccurrences()
    ensures Occurrences(Placeholder, '%') == 1
  {
  }

  /** A '%'-free text followed by the placeholder holds one '%'. */
  lemma OccurrencesBeforePlaceholder(a: string)
    requires '%' !in a
    ensures Occurrences(a + Placeholder, '%') == 1
  {
    OccurrencesAbsent(a, '%');
    OccurrencesAppend(a, Placeholder, '%');
    PlaceholderOccurrences();
  }

  lemma ClauseOccurrences()
    ensures Occurrences(NameClause, '%') == 1
    ensures Occurrences(PhoneClause, '%') == 1
    ensures Occurrences(", ", '%') == 0
    ensures Occurrences(UpdatePrefix, '%') == 0
    ensures Occurrences(UpdateSuffix, '%') == 1
  {
    assert '%' !in "user_name = " && '%' !in "phone_num = ";
    OccurrencesBeforePlaceholder("user_name = ");
    OccurrencesBeforePlaceholder("phone_num = ");
    assert '%' !in " WHERE user_id = ";
    OccurrencesBeforePlaceholder(" WHERE user_id = ");
    OccurrencesAbsent(", ", '%');
    assert '%' !in UpdatePrefix;
    OccurrencesAbsent(UpdatePrefix, '%');
  }

  /** Any selection, in order, of two texts holding one mark each holds one
      mark per text selected. */
  lemma SumOfSelected(a: string, b: string, useA: bool, useB: bool, c: char)
    requires Occurrences(a, c) == 1 && Occurrences(b, c) == 1
    ensures var f := (if useA then [a] else []) + (if useB then [b] else []);
            SumOccurrences(f, c) == |f|
  {
    var f := (if useA then [a] else []) + (if useB then [b] else []);
    if useA && useB {
      assert f == [a, b] && f[1..] == [b] && f[1..][1..] == [];
      assert SumOccurrences([b], c) == 1 + SumOccurrences([], c);
      assert SumOccurrences(f, c) == 1 + SumOccurrences([b], c);
    } else if useA {
      assert f == [a] && f[1..] == [];
    } else if useB {
      assert f == [b] && f[1..] == [];
    } else {
      assert f == [];
    }
  }

  /** Each SET fragment holds exactly one '%'. */
  lemma ClausePlaceholders(newName: string, newPhone: string)
    ensures var f := SetClauses(newName, newPhone);
            SumOccurrences(f, '%') == |f|
  {
    ClauseOccurrences();
    SumOfSelected(NameClause, PhoneClause, newName != "", newPhone != "", '%');
  }

  /** Whatever the fragments, the statement holds the fragments' '%'s
      plus one for the user id. */
  lemma SqlOccurrences(fields: seq<string>)
    ensures Occurrences(UpdateSql(fields), '%') == SumOccurrences(fields, '%') + 1
  {
    var joined := Join(fields, ", ");
    ClauseOccurrences();
    OccurrencesJoin(fields, ", ", '%');
    OccurrencesAppend(UpdatePrefix + joined, UpdateSuffix, '%');
    OccurrencesAppend(UpdatePrefix, joined, '%');
  }

  /** The statement update_user executes holds exactly one '%' per
      parameter it passes. Every '%' in it comes from a "%s" placeholder
      (see UpdateSqlText), so the driver binds each parameter to one. */
  lemma PlaceholdersMatchParams(uid: string, newName: string, newPhone: string)
    ensures var sql := UpdateSql(SetClauses(newName, newPhone));
            Occurrences(sql, '%') == |SetValues(newName, newPhone) + [uid]|
  {
    var f := SetClauses(newName, newPhone);
    assert |SetValues(newName, newPhone)| == |f|;
    ClausePlaceholders(newName, newPhone);
    SqlOccurrences(f);
  }

  /** The full statement for each way of filling in the two answers: the
      prefix, the given clauses joined by ", ", and the WHERE suffix. */
  lemma UpdateSqlText(newName: string, newPhone: string)
    requires newName != "" || newPhone != ""
    ensures newName != "" && newPhone != "" ==>
              UpdateSql(SetClauses(newName, newPhone)) ==
                UpdatePrefix + NameClause + ", " + PhoneClause + UpdateSuffix
    ensures newName != "" && newPhone == "" ==>
              UpdateSql(SetClauses(newName, newPhone)) == UpdatePrefix + NameClause + UpdateSuffix
    ensures newName == "" && newPhone != "" ==>
              UpdateSql(SetClauses(newName, newPhone)) == UpdatePrefix + PhoneClause + UpdateSuffix
  {
    if newName != "" && newPhone != "" {
      var f := [NameClause, PhoneClause];
      assert SetClauses(newName, newPhone) == f;
      assert f[1..] == [PhoneClause];
      assert Join(f, ", ") == NameClause + ", " + PhoneClause;
    }
  }

  // ---------------------------------------------------------------------
  // main: the menu loop
  // ---------------------------------------------------------------------

  /** The handlers behind the menu keys. */
  datatype Handler = ImportCsv | AddUser | UpdateById | DeleteByName | QueryBook

  /** One entry of the `options` dict: a handler (none for Exit) and its description. */
  datatype MenuEntry = MenuEntry(handler: Option<Handler>, description: string)

  const Options: map<string, MenuEntry> := map[
    "1" := MenuEntry(Some(ImportCsv), "Import from CSV file"),
    "2" := MenuEntry(Some(AddUser), "Add single user"),
    "3" := MenuEntry(Some(UpdateById), "Update user by ID"),
    "4" := MenuEntry(Some(DeleteByName), "Delete user by name"),
    "5" := MenuEntry(Some(QueryBook), "Query phone book"),
    "0" := MenuEntry(None, "Exit")
  ]

  const InvalidOption: string := "[ERROR] Invalid option."

  /** What one choice line makes the loop do. */
  datatype Action = Exit | Invoke(handler: Handler) | Invalid

  /** The dispatch of one choice, as a single switch: "0" leaves the loop
      before any lookup, "1" imports from a CSV file, "2" to "5" run their
      handlers, anything else is invalid. */
  function Dispatch(choice: string): (a: Action)
    ensures a == Exit <==> choice == "0"
    ensures a == Invoke(ImportCsv) <==> choice == "1"
  {
    if choice == "0" then Exit
    else if choice == "1" then Invoke(ImportCsv)
    else if choice == "2" then Invoke(AddUser)
    else if choice == "3" then Invoke(UpdateById)
    else if choice == "4" then Invoke(DeleteByName)
    else if choice == "5" then Invoke(QueryBook)
    else Invalid
  }

  /** The switch agrees with the `options` table: a choice other than "0"
      runs a handler exactly when it is a key of the table, and then it
      runs that key's handler. */
  lemma DispatchMatchesOptions(choice: string)
    ensures Dispatch(choice).Invalid? <==> choice !in Options
    ensures Dispatch(choice).Invoke? ==>
              choice in Options && Options[choice].handler == Some(Dispatch(choice).handler)
    ensures choice in Options && choice != "0" ==> Options[choice].handler.Some?
  {
  }

  /** What the loop visibly does: a handler call (with the CSV path for
      the import handler, the connection alone otherwise) or a message. */
  datatype Effect = Called(handler: Handler, path: Option<string>) | Reported(message: string)

  /** How the loop ends: the user chose "0", or input ran out (input()
      raises, the outer handler reports it); the connection is closed
      either way. */
  datatype Ending = ExitChosen | InputExhausted

  datatype Transcript = Transcript(effects: seq<Effect>, ending: Ending)

  function After(effects: seq<Effect>, t: Transcript): Transcript
  {
    Transcript(effects + t.effects, t.ending)
  }

  /** The whole session for the menu-level input lines: choice lines, each
      "1" followed by its path line. Handlers' own prompts are not part of
      these lines. */
  function Session(lines: seq<string>): Transcript
    decreases |lines|
  {
    if lines == [] then Transcript([], InputExhausted)
    else match Dispatch(lines[0])
      case Exit => Transcript([], ExitChosen)
      case Invalid => After([Reported(InvalidOption)], Session(lines[1..]))
      case Invoke(h) =>
        if lines[0] == "1" then
          if |lines| < 2 then Transcript([], InputExhausted)
          else After([Called(h, Some(lines[1]))], Session(lines[2..]))
        else After([Called(h, None)], Session(lines[1..]))
  }

  lemma AfterAfter(es: seq<Effect>, e: Effect, t: Transcript)
    ensures After(es, After([e], t)) == After(es + [e], t)
  {
  }

  /** The `while True` loop of main over the menu-level input lines. */
  method RunMenu(lines: seq<string>) returns (t: Transcript)
    ensures t == Session(lines)
  {
    var effects: seq<Effect> := [];
    var i := 0;
    while true
      invariant 0 <= i <= |lines|
      invariant Session(lines) == After(effects, Session(lines[i..]))
      decreases |lines| - i
    {
      if i == |lines| {
        return Transcript(effects, InputExhausted);
      }
      ghost var rest := lines[i..];
      var choice := lines[i];
      assert rest[0] == choice && rest[1..] == lines[i + 1..];
      i := i + 1;
      if choice == "0" {
        return Transcript(effects, ExitChosen);
      }
      var action := Dispatch(choice);
      var effect: Effect;
      if action.Invoke? {
        if choice == "1" {
          if i == |lines| {
            return Transcript(effects, InputExhausted);
          }
          var path := lines[i];
          assert rest[1] == path && rest[2..] == lines[i + 1..];
          i := i + 1;
          effect := Called(action.handler, Some(path));
        } else {
          effect := Called(action.handler, None);
        }
      } else {
        effect := Reported(InvalidOption);
      }
      assert Session(rest) == After([effect], Session(lines[i..]));
      AfterAfter(effects, effect, Session(lines[i..]));
      effects := effects + [effect];
    }
  }

  /** Choosing "0" ends the session at once, whatever follows, without
      calling any handler. */
  lemma ExitCallsNothing(rest: seq<string>)
    ensures Session(["0"] + rest) == Transcript([], ExitChosen)
  {
  }

  /** An unknown choice reports the error, calls nothing, and the loop
      goes on with the next line. */
  lemma InvalidContinues(choice: string, rest: seq<string>)
    requires choice !in Options
    ensures Session([choice] + rest) == After([Reported(InvalidOption)], Session(rest))
  {
  }

  /** "1" reads the next line as the path and passes it to the CSV import;
      the other keys call their handler with the connection only. */
  lemma KnownChoiceCalls(choice: string, path: string, rest: seq<string>)
    requires choice in Options && choice != "0"
    ensures choice == "1" ==>
              Session([choice, path] + rest) == After([Called(ImportCsv, Some(path))], Session(rest))
    ensures choice != "1" ==>
              Session([choice] + rest) == After([Called(Options[choice].handler.value, None)], Session(rest))
  {
  }

  /** Throughout a session, a path goes with the CSV import and only with
      it, each input line yields at most one effect, and every message is
      the invalid-option report. */
  lemma {:induction false} SessionEffects(lines: seq<string>)
    ensures var es := Session(lines).effects;
            && |es| <= |lines|
            && (forall i :: 0 <= i < |es| && es[i].Called? ==>
                  (es[i].path.Some? <==> es[i].handler == ImportCsv))
            && (forall i :: 0 <= i < |es| && es[i].Reported? ==> es[i].message == InvalidOption)
    decreases |lines|
  {
    if lines != [] {
      SessionEffects(lines[1..]);
      if |lines| >= 2 {
        SessionEffects(lines[2..]);
      }
    }
  }
}
