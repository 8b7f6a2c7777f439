/** The data directory and the database path through a migration. */
module PathPreservation {
  import opened Wrappers
  import opened Text
  import opened Settings
  import opened Migration
  import opened Preservation

  /** The database when nothing overrides its path: a directory override is followed unless the YAML path
      differs from the default one; without it, YAML paths and the platform decide. */
  function Chosen(f: Formats, w: string, y: Option<string>, p: Option<string>, platformDir: string): string {
    if w != "" then
      if NonBlank(p) && p.value != f.databaseIn(YamlDir(w, y, platformDir)) then p.value else f.databaseIn(w)
    else if NonBlank(p) then p.value
    else if NonBlank(y) && p == None then f.databaseIn(y.value)
    else f.databaseIn(platformDir)
  }

  /** The stepwise assignments amount to that choice. */
  lemma DatabaseIsChosen(f: Formats, w: string, q: string, y: Option<string>, p: Option<string>, platformDir: string)
    ensures Database(f, w, q, y, p, platformDir) == if q != "" then q else Chosen(f, w, y, p, platformDir)
  {}

  /** The YAML path of a setting after the migration. */
  function NewText(f: Formats, s: Machine, m: Setting): Option<string> {
    if Moves(f, s, m) then Some(TextBack(f, Get(Moved(f, s), m))) else TextIn(f, ScalarOf(DocumentOf(f, s), m))
  }

  function NewOverride(f: Formats, s: Machine, m: Setting): string {
    if Shadowed(f, s, m) then Override(f, s, m) else ""
  }

  lemma NewPath(f: Formats, s: Machine, m: Setting)
    requires Lawful(f) && KindOf(m) == StringKind
    ensures
      var after := AfterMigration(f, s);
      && TextIn(f, ScalarOf(DocumentOf(f, after), m)) == NewText(f, s, m)
      && Override(f, after, m) == NewOverride(f, s, m)
  {
    SameDirectories(f, s);
    MigrateFromScalar(f, DocumentOf(f, s), Moved(f, s), 0, m);
    AfterwardsReads(f, s, m);
    assert LawfulText(f, Get(Moved(f, s), m));
  }

  lemma NewDatabase(f: Formats, s: Machine)
    requires Lawful(f)
    ensures DatabasePath(f, AfterMigration(f, s)) ==
            Database(f, NewOverride(f, s, DataDir), NewOverride(f, s, DbPath), NewText(f, s, DataDir),
                     NewText(f, s, DbPath), s.platformDataDir)
  {
    NewPath(f, s, DataDir);
    NewPath(f, s, DbPath);
  }

  /** A YAML path counts unless it is blank or, under a directory override, looks like the default one. */
  predicate Counts(f: Formats, w: string, y: Option<string>, p: Option<string>, platformDir: string) {
    NonBlank(p) && (w == "" || p.value != f.databaseIn(YamlDir(w, y, platformDir)))
  }

  /** The directory of the default database: a blank YAML path leaves it to the platform. */
  function DefaultDir(w: string, y: Option<string>, p: Option<string>, platformDir: string): string {
    if w != "" then w else if p == None then YamlDir("", y, platformDir) else platformDir
  }

  lemma ChosenCounts(f: Formats, w: string, y: Option<string>, p: Option<string>, platformDir: string)
    ensures Chosen(f, w, y, p, platformDir)
            == if Counts(f, w, y, p, platformDir) then p.value else f.databaseIn(DefaultDir(w, y, p, platformDir))
  {}

  /** A YAML path looks default under both YAML directories or under neither; else it must be the default. */
  predicate LooksAlike(f: Formats, w: string, y: Option<string>, moved: Option<string>, p: Option<string>,
      platformDir: string) {
    || !NonBlank(p)
    || (p.value == f.databaseIn(YamlDir(w, y, platformDir)) <==>
        p.value == f.databaseIn(YamlDir(w, moved, platformDir)))
    || Alike(p.value, f.databaseIn(w))
  }

  /**
   When the database path stays although a legacy directory, and no legacy path, goes away: `e` is the
   environment's directory, `v` the legacy one, `y` and `p` are the YAML paths before, `moved` is the
   YAML directory after.
   */
  predicate FollowsDirectory(f: Formats, e: string, v: string, y: Option<string>, p: Option<string>,
                             moved: Option<string>, platformDir: string) {
    if e != "" then LooksAlike(f, e, y, moved, p, platformDir)
    else if NonBlank(p) then
      // a YAML path must not have looked like the default one
      p.value != f.databaseIn(YamlDir(v, y, platformDir)) || Alike(p.value, f.databaseIn(v))
    else if p == None && NonBlank(moved) then Alike(f.databaseIn(moved.value), f.databaseIn(v))
    else Alike(f.databaseIn(platformDir), f.databaseIn(v))
  }

  /** When the database path stays although a legacy path `d` goes away; `moved` and `kept` are the YAML paths after. */
  predicate ReplacesPath(f: Formats, e: string, d: string, movesPlainly: bool, moved: Option<string>,
      kept: Option<string>, platformDir: string) {
    if movesPlainly then
      // under a directory of the environment, the moved path must not look like the default one
      e == "" || d != f.databaseIn(YamlDir(e, moved, platformDir)) || Alike(f.databaseIn(e), d)
    else if Counts(f, e, moved, kept, platformDir) then
      // the path that the document keeps instead must be the legacy one
      Alike(kept.value, d)
    else
      // no path counts: the default one must be the legacy one
      Alike(f.databaseIn(DefaultDir(e, moved, kept, platformDir)), d)
  }

  /**
   When the database path stays although a directory or a path that load had not seen moves into the document,
   under the directory override `w`: `y` and `p` are the YAML paths before, `moved` and `path` those after.
   */
  predicate AddsNothing(f: Formats, w: string, y: Option<string>, p: Option<string>,
                        moved: Option<string>, path: Option<string>, pathMoves: bool, platformDir: string) {
    if !pathMoves then
      if w != "" then LooksAlike(f, w, y, moved, p, platformDir)
      else
        // only a default database without a YAML path follows the YAML directory
        p.Some? || Alike(f.databaseIn(YamlDir("", moved, platformDir)), f.databaseIn(YamlDir("", y, platformDir)))
    else if Counts(f, w, moved, path, platformDir) then
      // the moved path must be the old one, or the default one that counted before
      if Counts(f, w, y, p, platformDir) then Alike(path.value, p.value)
      else Alike(path.value, f.databaseIn(DefaultDir(w, y, p, platformDir)))
    else if Counts(f, w, y, p, platformDir) then
      // an old path that counted must be the default one that takes its place
      Alike(f.databaseIn(DefaultDir(w, moved, path, platformDir)), p.value)
    else
      // no path counts before or after: the directory override decides, or the default ones must agree
      || w != ""
      || Alike(f.databaseIn(DefaultDir("", moved, path, platformDir)), f.databaseIn(DefaultDir("", y, p, platformDir)))
  }

  /** When the migration keeps the database path up to surrounding space, told from before it. */
  predicate DatabaseStays(f: Formats, s: Machine) {
    var e, v, d := Get(s.env, DataDir), Get(Legacy(f, s), DataDir), Get(Legacy(f, s), DbPath);
    var y, p := TextIn(f, ScalarOf(DocumentOf(f, s), DataDir)), TextIn(f, ScalarOf(DocumentOf(f, s), DbPath));
    var moved, path := NewText(f, s, DataDir), NewText(f, s, DbPath);
    if Shadowed(f, s, DbPath) then true
    else if Redirected(f, s) then
      || (!Moves(f, s, DataDir) && !Moves(f, s, DbPath))
      || AddsNothing(f, FirstOf(e, v), y, p, moved, path, Moves(f, s, DbPath), s.platformDataDir)
    else if d != "" then ReplacesPath(f, e, d, MovesPlainly(f, s, DbPath), moved, path, s.platformDataDir)
    else v == "" || FollowsDirectory(f, e, v, y, p, moved, s.platformDataDir)
  }

  /** A legacy path is absent, or a one-line text that is not blank and moves. */
  predicate MovesPlainly(f: Formats, s: Machine, m: Setting) {
    var value := Get(Legacy(f, s), m);
    value == "" || (Moves(f, s, m) && OneLine(value) && Trim(value) != "")
  }

  /** An override decides, and without one the choice. */
  lemma DatabasesCompared(f: Formats, s: Machine)
    requires Lawful(f) && !Shadowed(f, s, DbPath)
    ensures DatabasePath(f, AfterMigration(f, s)) ==
            Chosen(f, NewOverride(f, s, DataDir), NewText(f, s, DataDir), NewText(f, s, DbPath), s.platformDataDir)
    ensures DatabasePath(f, s) ==
            (var d := Get(Legacy(f, s), DbPath);
             if d != "" then d
             else Chosen(f, Override(f, s, DataDir), TextIn(f, ScalarOf(DocumentOf(f, s), DataDir)),
                         TextIn(f, ScalarOf(DocumentOf(f, s), DbPath)), s.platformDataDir))
  {
    NewDatabase(f, s);
    DatabaseIsChosen(f, NewOverride(f, s, DataDir), "", NewText(f, s, DataDir), NewText(f, s, DbPath),
        s.platformDataDir);
    DatabaseIsChosen(f, Override(f, s, DataDir), Override(f, s, DbPath), TextIn(f, ScalarOf(DocumentOf(f, s), DataDir)),
                     TextIn(f, ScalarOf(DocumentOf(f, s), DbPath)), s.platformDataDir);
  }

  lemma ReplacementsCompared(f: Formats, e: string, d: string, movesPlainly: bool, moved: Option<string>,
      kept: Option<string>, platformDir: string)
    requires movesPlainly ==> kept == Some(d) && NonBlank(kept)
    ensures Alike(Chosen(f, e, moved, kept, platformDir), d) <==>
        ReplacesPath(f, e, d, movesPlainly, moved, kept, platformDir)
  {
    ChosenCounts(f, e, moved, kept, platformDir);
  }

  lemma AdditionsCompared(f: Formats, w: string, y: Option<string>, p: Option<string>,
                          moved: Option<string>, path: Option<string>, pathMoves: bool, platformDir: string)
    requires !pathMoves ==> path == p
    ensures Alike(Chosen(f, w, moved, path, platformDir), Chosen(f, w, y, p, platformDir)) <==>
            AddsNothing(f, w, y, p, moved, path, pathMoves, platformDir)
  {
    ChosenCounts(f, w, y, p, platformDir);
    ChosenCounts(f, w, moved, path, platformDir);
  }

  lemma ChoicesCompared(f: Formats, e: string, v: string, y: Option<string>, p: Option<string>, moved: Option<string>,
      platformDir: string)
    requires v != ""
    ensures Alike(Chosen(f, e, moved, p, platformDir), Chosen(f, FirstOf(e, v), y, p, platformDir)) <==>
            FollowsDirectory(f, e, v, y, p, moved, platformDir)
  {}

  /** A migration keeps the data directory exactly when it survives, and the database path exactly when it stays. */
  lemma PathsPreserved(f: Formats, s: Machine)
    requires Lawful(f)
    requires forall m :: YamlReadable(f, s, m) && OverrideReadable(f, s, m)
    ensures OverrideReadable(f, AfterMigration(f, s), DataDir)
    ensures Same(Effective(f, AfterMigration(f, s), DataDir), Effective(f, s, DataDir)) <==> Survives(f, s, DataDir)
    ensures Alike(DatabasePath(f, AfterMigration(f, s)), DatabasePath(f, s)) <==> DatabaseStays(f, s)
  {
    PlainPreserved(f, s, DataDir);
    DatabasePreserved(f, s);
  }

  lemma DatabasePreserved(f: Formats, s: Machine)
    requires Lawful(f)
    ensures Alike(DatabasePath(f, AfterMigration(f, s)), DatabasePath(f, s)) <==> DatabaseStays(f, s)
  {
    var e, v := Get(s.env, DataDir), Get(Legacy(f, s), DataDir);
    if Shadowed(f, s, DbPath) {
      NewDatabase(f, s);
    } else {
      DatabasesCompared(f, s);
      var y, p := TextIn(f, ScalarOf(DocumentOf(f, s), DataDir)), TextIn(f, ScalarOf(DocumentOf(f, s), DbPath));
      var moved, path := NewText(f, s, DataDir), NewText(f, s, DbPath);
      if Redirected(f, s) {
        AdditionsCompared(f, FirstOf(e, v), y, p, moved, path, Moves(f, s, DbPath), s.platformDataDir);
      } else if Get(Legacy(f, s), DbPath) != "" {
        if MovesPlainly(f, s, DbPath) {
          PlainPathReturns(f, s, DbPath);
        }
        ReplacementsCompared(f, e, Get(Legacy(f, s), DbPath), MovesPlainly(f, s, DbPath), moved, path,
            s.platformDataDir);
      } else if v != "" {
        ChoicesCompared(f, e, v, y, p, moved, s.platformDataDir);
      }
    }
  }

  lemma PlainPathReturns(f: Formats, s: Machine, m: Setting)
    requires Lawful(f) && KindOf(m) == StringKind && !Redirected(f, s) && Get(Legacy(f, s), m) != ""
        && MovesPlainly(f, s, m)
    ensures NewText(f, s, m) == Some(Get(Legacy(f, s), m)) && NonBlank(NewText(f, s, m))
  {
    assert LawfulText(f, Get(Legacy(f, s), m));
  }

  /** Both paths stay when the environment sets neither, YAML has no database path, and legacy ones move plainly. */
  lemma UsualPathsStay(f: Formats, s: Machine)
    requires Lawful(f) && !Redirected(f, s)
    requires Get(s.env, DataDir) == Get(s.env, DbPath) == "" && ScalarOf(DocumentOf(f, s), DbPath) == None
    requires MovesPlainly(f, s, DataDir) && MovesPlainly(f, s, DbPath)
    ensures Survives(f, s, DataDir) && DatabaseStays(f, s)
  {
    assert LawfulText(f, Get(Legacy(f, s), DataDir)) && LawfulText(f, Get(Legacy(f, s), DbPath));
    if Get(Legacy(f, s), DataDir) != "" {
      OneLineTextSurvives(f, s, DataDir);
    }
  }

  /** A written-out default database path follows a legacy directory before the migration, and not after it. */
  lemma DatabaseIsLeftBehind(f: Formats, s: Machine)
    requires Lawful(f) && !Redirected(f, s) && s.env == map[] && Legacy(f, s) == map[DataDir := "/new"]
    requires TextIn(f, ScalarOf(DocumentOf(f, s), DataDir)) == Some("/old")
    requires TextIn(f, ScalarOf(DocumentOf(f, s), DbPath)) == Some(f.databaseIn("/old"))
        && Trim(f.databaseIn("/old")) != ""
    ensures DatabasePath(f, s) == f.databaseIn("/new")
    ensures DatabasePath(f, AfterMigration(f, s)) == f.databaseIn("/old")
  {
    DatabasesCompared(f, s);
    assert !Moves(f, s, DbPath);
    TrimOld();
  }

  lemma TrimOld()
    ensures Trim("/old") != ""
  {
    VisibleIsNoSpace('/');
    VisibleIsNoSpace('d');
    TrimTight("/old");
  }

  /** A legacy path that is the default one of the YAML directory, under a directory of the environment: it counts as
      an override before the migration, and after it gives way to the default one of the environment's directory. */
  lemma LegacyPathLooksDefault(f: Formats, s: Machine)
    requires Lawful(f) && !Redirected(f, s) && s.env == map[DataDir := "/env"]
    requires Legacy(f, s) == map[DbPath := f.databaseIn("/env2")] && MovesPlainly(f, s, DbPath)
    requires TextIn(f, ScalarOf(DocumentOf(f, s), DataDir)) == Some("/env2")
    ensures DatabasePath(f, s) == f.databaseIn("/env2")
    ensures DatabasePath(f, AfterMigration(f, s)) == f.databaseIn("/env")
    ensures DatabaseStays(f, s) <==> Alike(f.databaseIn("/env"), f.databaseIn("/env2"))
  {
    DatabasesCompared(f, s);
    PlainPathReturns(f, s, DbPath);
    assert !Moves(f, s, DataDir);
    TrimEnv();
  }

  lemma TrimEnv()
    ensures Trim("/env2") != ""
  {
    VisibleIsNoSpace('/');
    VisibleIsNoSpace('2');
    TrimTight("/env2");
  }
}
