/** Moving legacy settings from secrets.env into settings.yaml. */
module Migration {
  import opened Wrappers
  import opened Text
  import opened Settings
  import Secrets

  function Normalize(f: Formats, value: string, kind: Kind): string {
    match kind
    case BoolKind => (match ParseBool(Trim(value)) case Some(b) => FormatBool(b) case None => Trim(value))
    case IntKind => (match Atoi(Trim(value)) case Some(n) => Itoa(n) case None => Trim(value))
    case FloatKind => var parsed := f.parseFloat(Trim(value)); if parsed.ok then f.formatFloat(parsed.value)
        else Trim(value)
    case StringKind => Trim(value)
  }

  /** yamlScalar: a number that cannot be parsed is written as what the parser returned beside its error. */
  function YamlScalar(f: Formats, value: string, kind: Kind): Scalar {
    match kind
    case BoolKind => Printed(FormatBool(Normalize(f, value, kind) == "true"))
    case IntKind => Printed(Itoa(AtoiOrNearest(Trim(value))))
    case FloatKind => Printed(f.formatFloat(f.parseFloat(Trim(value)).value))
    case StringKind => Scalar(value, TextStyle)
  }

  /** A scalar that says the same when normalized is left as it is. */
  predicate SaysTheSame(f: Formats, scalar: Option<Scalar>, value: string, kind: Kind) {
    scalar.Some? && Normalize(f, scalar.value.text, kind) == Normalize(f, YamlScalar(f, value, kind).text, kind)
  }

  /** Writes one scalar, in a new section if need be. */
  function SetScalar(doc: Document, m: Setting, scalar: Scalar): Document
    requires SectionWritable(doc, m)
  {
    var fields := if SectionOf(m) in doc.sections then doc.sections[SectionOf(m)].fields else map[];
    doc.(sections := doc.sections[SectionOf(m) := SectionNode(fields[m := scalar], true)])
  }

  /** A value is written unless its section is no mapping or the old scalar says the same. */
  predicate Rewritten(f: Formats, doc: Document, m: Setting, value: string) {
    value != "" && SectionWritable(doc, m) && !SaysTheSame(f, ScalarOf(doc, m), value, KindOf(m))
  }

  /** In terms of what the texts mean: an old scalar is kept when it means what would be written. */
  lemma RewrittenMeaning(f: Formats, doc: Document, m: Setting, value: string)
    ensures Rewritten(f, doc, m, value) <==>
      && value != "" && SectionWritable(doc, m)
      && !(ScalarOf(doc, m).Some?
           && SameMeaning(f, KindOf(m), ScalarOf(doc, m).value.text, YamlScalar(f, value, KindOf(m)).text))
  {
    if ScalarOf(doc, m).Some? {
      NormalizedMeaning(f, KindOf(m), ScalarOf(doc, m).value.text, YamlScalar(f, value, KindOf(m)).text);
    }
  }

  /** The document after setSettingsValue. */
  function SetValue(f: Formats, doc: Document, m: Setting, value: string): Document {
    if Rewritten(f, doc, m, value) then SetScalar(doc, m, YamlScalar(f, value, KindOf(m))) else doc
  }

  /** The document after the settings from the `i`-th on have been moved into it. */
  function MigrateFrom(f: Formats, doc: Document, legacy: Values, i: nat): Document
    requires i <= |ALL|
    decreases |ALL| - i
  {
    if i == |ALL| then doc else MigrateFrom(f, SetValue(f, doc, ALL[i], Get(legacy, ALL[i])), legacy, i + 1)
  }

  function Migrated(f: Formats, doc: Document, legacy: Values): Document {
    MigrateFrom(f, doc, legacy, 0)
  }

  /** The scalar of one setting after the migration. */
  function MigratedScalar(f: Formats, doc: Document, legacy: Values, m: Setting): Option<Scalar> {
    if Rewritten(f, doc, m, Get(legacy, m)) then Some(YamlScalar(f, Get(legacy, m), KindOf(m))) else ScalarOf(doc, m)
  }

  lemma SetScalarLocal(doc: Document, k: Setting, scalar: Scalar, m: Setting)
    requires SectionWritable(doc, k)
    ensures
      var after := SetScalar(doc, k, scalar);
      && SectionWritable(after, m) == SectionWritable(doc, m) && after.rest == doc.rest
      && ScalarOf(after, m) == if k == m then Some(scalar) else ScalarOf(doc, m)
  {}

  lemma SetValueLocal(f: Formats, doc: Document, k: Setting, value: string, m: Setting)
    ensures
      var after := SetValue(f, doc, k, value);
      && SectionWritable(after, m) == SectionWritable(doc, m) && after.rest == doc.rest
      && ScalarOf(after, m) == if k == m && Rewritten(f, doc, k, value) then Some(YamlScalar(f, value, KindOf(k)))
          else ScalarOf(doc, m)
  {
    if Rewritten(f, doc, k, value) {
      SetScalarLocal(doc, k, YamlScalar(f, value, KindOf(k)), m);
    }
  }

  /** Moving setting `i` leaves what the others will be. */
  lemma MoveOneScalar(f: Formats, doc: Document, legacy: Values, i: nat, m: Setting)
    requires i < |ALL|
    ensures
      var moved := SetValue(f, doc, ALL[i], Get(legacy, ALL[i]));
      && SectionWritable(moved, m) == SectionWritable(doc, m) && moved.rest == doc.rest
      && (if Rank(m) < i + 1 then ScalarOf(moved, m) else MigratedScalar(f, moved, legacy, m))
         == if Rank(m) < i then ScalarOf(doc, m) else MigratedScalar(f, doc, legacy, m)
  {
    RankListed(i);
    SetValueLocal(f, doc, ALL[i], Get(legacy, ALL[i]), m);
  }

  /** The migration settles every setting on its own, in whatever order the table lists them. */
  lemma {:induction false} MigrateFromScalar(f: Formats, doc: Document, legacy: Values, i: nat, m: Setting)
    requires i <= |ALL|
    ensures
      var after := MigrateFrom(f, doc, legacy, i);
      && SectionWritable(after, m) == SectionWritable(doc, m) && after.rest == doc.rest
      && ScalarOf(after, m) == if Rank(m) < i then ScalarOf(doc, m) else MigratedScalar(f, doc, legacy, m)
    decreases |ALL| - i
  {
    if i < |ALL| {
      MoveOneScalar(f, doc, legacy, i, m);
      MigrateFromScalar(f, SetValue(f, doc, ALL[i], Get(legacy, ALL[i])), legacy, i + 1, m);
    }
  }

  lemma {:induction false} NothingToMove(f: Formats, doc: Document, i: nat)
    requires i <= |ALL|
    ensures MigrateFrom(f, doc, map[], i) == doc
    decreases |ALL| - i
  {
    if i < |ALL| {
      NothingToMove(f, doc, i + 1);
    }
  }

  // ----- the report -----

  datatype Conflict = Conflict(setting: Setting, yamlValue: string, keptValue: string)

  datatype MigrationResult = MigrationResult(changed: bool, migrated: seq<Setting>, conflicts: seq<Conflict>)

  /** The legacy value of a setting replaces a scalar that says something else. */
  function ConflictOf(f: Formats, doc: Document, legacy: Values, m: Setting): seq<Conflict> {
    var scalar, value := ScalarOf(doc, m), Get(legacy, m);
    if value != "" && SectionWritable(doc, m) && scalar.Some? && scalar.value.text != ""
       && Normalize(f, scalar.value.text, KindOf(m)) != Normalize(f, value, KindOf(m))
    then [Conflict(m, scalar.value.text, value)]
    else []
  }

  function ConflictsUpTo(f: Formats, doc: Document, legacy: Values, n: nat): seq<Conflict>
    requires n <= |ALL|
  {
    if n == 0 then [] else ConflictsUpTo(f, doc, legacy, n - 1) + ConflictOf(f, doc, legacy, ALL[n - 1])
  }

  function MovedUpTo(legacy: Values, n: nat): seq<Setting>
    requires n <= |ALL|
  {
    if n == 0 then [] else MovedUpTo(legacy, n - 1) + (if Get(legacy, ALL[n - 1]) == "" then [] else [ALL[n - 1]])
  }

  function Report(f: Formats, doc: Document, legacy: Values): MigrationResult {
    var moved := MovedUpTo(legacy, |ALL|);
    MigrationResult(moved != [], moved, ConflictsUpTo(f, doc, legacy, |ALL|))
  }

  lemma {:induction false} MovedMembers(legacy: Values, n: nat, m: Setting)
    requires n <= |ALL|
    ensures m in MovedUpTo(legacy, n) <==> Rank(m) < n && Get(legacy, m) != ""
  {
    if n > 0 {
      RankListed(n - 1);
      MovedMembers(legacy, n - 1, m);
    }
  }

  /** The report lists exactly the settings with a legacy value, and is marked as a change when there is one. */
  lemma MovedAny(f: Formats, doc: Document, legacy: Values)
    ensures forall m :: m in Report(f, doc, legacy).migrated <==> Get(legacy, m) != ""
    ensures Report(f, doc, legacy).changed <==> exists m :: Get(legacy, m) != ""
  {
    forall m ensures m in MovedUpTo(legacy, |ALL|) <==> Get(legacy, m) != "" {
      MovedMembers(legacy, |ALL|, m);
    }
    if MovedUpTo(legacy, |ALL|) != [] {
      assert MovedUpTo(legacy, |ALL|)[0] in MovedUpTo(legacy, |ALL|);
    }
  }

  /** Two texts mean the same setting value: the same flag, the same number, or, where they are no such thing, the
      same text but for surrounding space. */
  predicate SameMeaning(f: Formats, kind: Kind, a: string, b: string) {
    match kind
    case BoolKind => ParseBool(Trim(a)) == ParseBool(Trim(b)) && (ParseBool(Trim(a)) == None ==> Trim(a) == Trim(b))
    case IntKind => Atoi(Trim(a)) == Atoi(Trim(b)) && (Atoi(Trim(a)) == None ==> Trim(a) == Trim(b))
    case FloatKind => NumberText(f, Trim(a)) == NumberText(f, Trim(b))
    case StringKind => Trim(a) == Trim(b)
  }

  /** A number in its shortest form, and any other text as it is. */
  function NumberText(f: Formats, text: string): string {
    if f.parseFloat(text).ok then f.formatFloat(f.parseFloat(text).value) else text
  }

  lemma NormalizedMeaning(f: Formats, kind: Kind, a: string, b: string)
    ensures Normalize(f, a, kind) == Normalize(f, b, kind) <==> SameMeaning(f, kind, a, b)
  {
    if kind == IntKind {
      WholeMeaning(Trim(a));
      WholeMeaning(Trim(b));
    }
  }

  lemma WholeMeaning(text: string)
    ensures Atoi(text).Some? ==> Atoi(Itoa(Atoi(text).value)) == Atoi(text)
  {
    if Atoi(text).Some? {
      AtoiItoa(Atoi(text).value);
    }
  }

  lemma {:induction false} ConflictMembers(f: Formats, doc: Document, legacy: Values, n: nat, c: Conflict)
    requires n <= |ALL|
    ensures c in ConflictsUpTo(f, doc, legacy, n) <==>
            Rank(c.setting) < n && ConflictOf(f, doc, legacy, c.setting) == [c]
  {
    if n > 0 {
      RankListed(n - 1);
      ConflictMembers(f, doc, legacy, n - 1, c);
    }
  }

  /** A conflict is reported exactly where a legacy value is moved over a nonempty scalar of another meaning, with
      both texts. */
  lemma ConflictsReported(f: Formats, doc: Document, legacy: Values, c: Conflict)
    ensures c in Report(f, doc, legacy).conflicts <==>
      && c.keptValue == Get(legacy, c.setting) && c.keptValue != ""
      && SectionWritable(doc, c.setting)
      && ScalarOf(doc, c.setting).Some? && c.yamlValue == ScalarOf(doc, c.setting).value.text && c.yamlValue != ""
      && !SameMeaning(f, KindOf(c.setting), c.yamlValue, c.keptValue)
  {
    ConflictMembers(f, doc, legacy, |ALL|, c);
    NormalizedMeaning(f, KindOf(c.setting), c.yamlValue, c.keptValue);
  }

  lemma {:induction false} NothingMoved(f: Formats, doc: Document, n: nat)
    requires n <= |ALL|
    ensures MovedUpTo(map[], n) == [] && ConflictsUpTo(f, doc, map[], n) == []
  {
    if n > 0 {
      NothingMoved(f, doc, n - 1);
    }
  }

  // ----- the machine after a migration -----

  /** The secrets file keeps credentials and the configuration directory, from itself or as loaded. */
  function MigratedFolder(f: Formats, folder: Folder, username: string, password: string, configDir: string): Folder {
    WrittenFolder(FirstOf(folder.username, username), FirstOf(folder.password, password),
        FirstOf(folder.configDir, configDir),
                  Migrated(f, folder.doc, folder.legacy))
  }

  /** A directory after its secrets file has been written: it can be read when its lines fit. */
  function WrittenFolder(username: string, password: string, configDir: string, doc: Document): Folder {
    Folder(Secrets.CredentialsFit(username, password, configDir), map[], username, password, configDir, doc)
  }

  /** A written secrets file can be read, with the values that were written, exactly when the model says so. */
  lemma WrittenSecretsRead(username: string, password: string, configDir: string, doc: Document, keys: seq<string>)
    requires Encodable(WrittenFolder(username, password, configDir, doc)) && keys == Secrets.SUPPORTED_KEYS
    ensures
      var values := Secrets.Credentials(username, password, configDir);
      var text := Secrets.Contents(keys, values, "");
      && text.Ok?
      && Secrets.ReadAgain(keys, text.value)
         == if WrittenFolder(username, password, configDir, doc).secretsRead then Ok(values) else Err(Secrets.TOO_LONG)
  {
    Secrets.CredentialsRoundTrip(username, password, configDir, keys);
  }

  predicate Encodable(folder: Folder) {
    Secrets.Encodable(folder.username) && Secrets.Encodable(folder.password) && Secrets.Encodable(folder.configDir)
  }

  /** The legacy values that Migrate moves. */
  function Moved(f: Formats, s: Machine): Values {
    At(f, s, ConfigDir(f, s)).legacy
  }

  function MigratedHere(f: Formats, s: Machine): Folder {
    MigratedFolder(f, At(f, s, ConfigDir(f, s)), Username(f, s), Password(f, s), ConfigDir(f, s))
  }

  /** The secrets file that is migrated can be read, and what replaces it can be encoded. */
  predicate CanMigrate(f: Formats, s: Machine) {
    At(f, s, ConfigDir(f, s)).secretsRead && Encodable(MigratedHere(f, s))
  }

  function AfterMigration(f: Formats, s: Machine): Machine {
    s.(folders := s.folders[f.place(ConfigDir(f, s)) := MigratedHere(f, s)])
  }

  /** A load after the migration finds the same directories and credentials; what it sees of the legacy values
      is nothing, unless the first directory leads to another one, whose secrets.env alone was migrated. */
  lemma SameDirectories(f: Formats, s: Machine)
    ensures
      var after := AfterMigration(f, s);
      && FirstDir(after) == FirstDir(s) && ConfigDir(f, after) == ConfigDir(f, s)
      && Username(f, after) == Username(f, s) && Password(f, after) == Password(f, s)
      && DocumentOf(f, after) == Migrated(f, DocumentOf(f, s), Moved(f, s))
      && Moved(f, after) == map[]
      && Legacy(f, after) == if Redirected(f, s) then Legacy(f, s) else map[]
  {
  }

  /** Credentials that stand in the migrated secrets file stay, missing ones are filled in as they were loaded, the
      settings are gone from it, and no other directory changes. */
  lemma MigratedSecrets(f: Formats, s: Machine)
    ensures
      var dir := ConfigDir(f, s);
      var before, after := At(f, s, dir), At(f, AfterMigration(f, s), dir);
      && after.username == (if before.username == "" then Username(f, s) else before.username)
      && after.password == (if before.password == "" then Password(f, s) else before.password)
      && after.configDir == (if before.configDir == "" then dir else before.configDir)
      && after.legacy == map[]
      && forall name | f.place(name) != f.place(dir) :: At(f, AfterMigration(f, s), name) == At(f, s, name)
  {
  }

  /** Loading and migrating a second time changes nothing and reports nothing. */
  lemma SecondMigration(f: Formats, s: Machine)
    ensures AfterMigration(f, AfterMigration(f, s)) == AfterMigration(f, s)
    ensures Report(f, DocumentOf(f, AfterMigration(f, s)), Moved(f, AfterMigration(f, s)))
        == MigrationResult(false, [], [])
  {
    var after := AfterMigration(f, s);
    SameDirectories(f, s);
    NothingToMove(f, DocumentOf(f, after), 0);
    NothingMoved(f, DocumentOf(f, after), |ALL|);
    assert MigratedHere(f, after) == MigratedHere(f, s);
    assert after.folders[f.place(ConfigDir(f, s)) := MigratedHere(f, s)] == after.folders;
  }

  // ----- the edit and the loop, in place -----

  /** The document of settings.yaml as Migrate edits it. */
  class SettingsDocument {
    var doc: Document

    constructor (doc: Document)
      ensures this.doc == doc
    {
      this.doc := doc;
    }

    /** setSettingsValue: returns the old text and whether the document changed. */
    method SetSettingsValue(f: Formats, m: Setting, value: string) returns (oldText: string, changed: bool)
      requires value != ""
      modifies this
      ensures doc == SetValue(f, old(doc), m, value)
      ensures changed <==> Rewritten(f, old(doc), m, value)
      ensures oldText == if SectionWritable(old(doc), m)
          && ScalarOf(old(doc), m).Some? then ScalarOf(old(doc), m).value.text else ""
    {
      if !SectionWritable(doc, m) {
        return "", false;
      }
      var fields := if SectionOf(m) in doc.sections then doc.sections[SectionOf(m)].fields else map[];
      var encoded := YamlScalar(f, value, KindOf(m));
      if m in fields && Normalize(f, fields[m].text, KindOf(m)) == Normalize(f, encoded.text, KindOf(m)) {
        return fields[m].text, false;
      }
      oldText, changed := if m in fields then fields[m].text else "", true;
      doc := doc.(sections := doc.sections[SectionOf(m) := SectionNode(fields[m := encoded], true)]);
    }

    /** One turn of the loop over the mapped settings. */
    method MoveSetting(f: Formats, legacy: Values, m: Setting)
        returns (moved: bool, changed: bool, found: seq<Conflict>)
      modifies this
      ensures moved <==> Get(legacy, m) != ""
      ensures doc == SetValue(f, old(doc), m, Get(legacy, m))
      ensures changed <==> Rewritten(f, old(doc), m, Get(legacy, m))
      ensures found == ConflictOf(f, old(doc), legacy, m)
    {
      var value := Get(legacy, m);
      moved, changed, found := value != "", false, [];
      if moved {
        var oldText;
        oldText, changed := SetSettingsValue(f, m, value);
        if oldText != "" && Normalize(f, oldText, KindOf(m)) != Normalize(f, value, KindOf(m)) {
          found := [Conflict(m, oldText, value)];
        }
      }
    }

    /** The loop over the mapped settings. */
    method MoveLegacy(f: Formats, legacy: Values)
        returns (migrated: seq<Setting>, conflicts: seq<Conflict>, changed: bool)
      modifies this
      ensures doc == Migrated(f, old(doc), legacy)
      ensures migrated == MovedUpTo(legacy, |ALL|) && conflicts == ConflictsUpTo(f, old(doc), legacy, |ALL|)
      ensures !changed ==> doc == old(doc)
      ensures changed ==> migrated != []
    {
      migrated, conflicts, changed := [], [], false;
      ghost var start := doc;
      for i := 0 to |ALL|
        invariant MoveState(f, start, doc, legacy, i, migrated, conflicts)
        invariant !changed ==> doc == start
        invariant changed ==> migrated != []
      {
        ghost var before := doc;
        var moved, edited, found := MoveSetting(f, legacy, ALL[i]);
        MoveNext(f, start, before, legacy, i, migrated, conflicts);
        conflicts, changed := conflicts + found, changed || edited;
        migrated := if moved then migrated + [ALL[i]] else migrated;
      }
    }
  }

  /** Moving the first `i` settings has not touched a later one, nor made its section unwritable. */
  ghost predicate Untouched(before: Document, doc: Document, i: nat, m: Setting) {
    && (Rank(m) >= i ==> ScalarOf(doc, m) == ScalarOf(before, m))
    && SectionWritable(doc, m) == SectionWritable(before, m)
  }

  /** Moving setting `i` leaves the later ones untouched, and its conflict is that with the old document. */
  lemma MoveKeepsOthers(f: Formats, start: Document, before: Document, legacy: Values, i: nat, next: nat)
    requires i < |ALL| && next == i + 1 && forall m :: Untouched(start, before, i, m)
    ensures forall m :: Untouched(start, SetValue(f, before, ALL[i], Get(legacy, ALL[i])), next, m)
    ensures ConflictOf(f, before, legacy, ALL[i]) == ConflictOf(f, start, legacy, ALL[i])
  {
    RankListed(i);
    assert Untouched(start, before, i, ALL[i]);
    var after := SetValue(f, before, ALL[i], Get(legacy, ALL[i]));
    forall m ensures Untouched(start, after, next, m) {
      assert Untouched(start, before, i, m);
      SetValueLocal(f, before, ALL[i], Get(legacy, ALL[i]), m);
    }
  }

  /** Where the loop over the mapped settings stands before setting `i`. */
  ghost predicate MoveState(f: Formats, start: Document, doc: Document, legacy: Values, i: nat, migrated: seq<Setting>,
      conflicts: seq<Conflict>)
    requires i <= |ALL|
  {
    && MigrateFrom(f, doc, legacy, i) == Migrated(f, start, legacy)
    && (forall m :: Untouched(start, doc, i, m))
    && migrated == MovedUpTo(legacy, i) && conflicts == ConflictsUpTo(f, start, legacy, i)
  }

  lemma MigrateOne(f: Formats, doc: Document, legacy: Values, i: nat)
    requires i < |ALL|
    ensures MigrateFrom(f, doc, legacy, i)
        == MigrateFrom(f, SetValue(f, doc, ALL[i], Get(legacy, ALL[i])), legacy, i + 1)
  {}

  lemma ReportOne(f: Formats, start: Document, legacy: Values, i: nat)
    requires i < |ALL|
    ensures ConflictsUpTo(f, start, legacy, i + 1) == ConflictsUpTo(f, start, legacy, i)
        + ConflictOf(f, start, legacy, ALL[i])
    ensures MovedUpTo(legacy, i + 1) == if Get(legacy, ALL[i]) != "" then MovedUpTo(legacy, i) + [ALL[i]]
        else MovedUpTo(legacy, i)
  {
    assert MovedUpTo(legacy, i) + [] == MovedUpTo(legacy, i);
  }

  lemma MoveNext(f: Formats, start: Document, before: Document, legacy: Values, i: nat, migrated: seq<Setting>,
      conflicts: seq<Conflict>)
    requires i < |ALL| && MoveState(f, start, before, legacy, i, migrated, conflicts)
    ensures MoveState(f, start, SetValue(f, before, ALL[i], Get(legacy, ALL[i])), legacy, i + 1,
                      if Get(legacy, ALL[i]) != "" then migrated + [ALL[i]]
                          else migrated, conflicts + ConflictOf(f, before, legacy, ALL[i]))
  {
    MoveKeepsOthers(f, start, before, legacy, i, i + 1);
    MigrateOne(f, before, legacy, i);
    ReportOne(f, start, legacy, i);
  }

  // ----- the command -----

  class SettingsFiles {
    var machine: Machine

    constructor (machine: Machine)
      ensures this.machine == machine
    {
      this.machine := machine;
    }

    /** Migrate, on the configuration that a load of this machine gave.  When a credential or the directory cannot
        be encoded, the document has been written and the secrets file stays. */
    method Migrate(f: Formats, loaded: Config) returns (r: Option<MigrationResult>)
      requires loaded.configDir == ConfigDir(f, machine)
      requires loaded.username == Username(f, machine) && loaded.password == Password(f, machine)
      modifies this
      ensures r.Some? <==> CanMigrate(f, old(machine))
      ensures r.Some? ==> machine == AfterMigration(f, old(machine))
                          && r.value == Report(f, DocumentOf(f, old(machine)), Moved(f, old(machine)))
      ensures !At(f, old(machine), ConfigDir(f, old(machine))).secretsRead ==> machine == old(machine)
      ensures r.None? ==>
        var here := At(f, old(machine), ConfigDir(f, old(machine)));
        machine.folders == old(machine).folders ||
        machine == old(machine).(folders :=
            old(machine).folders[f.place(loaded.configDir) := here.(doc := Migrated(f, here.doc, here.legacy))])
    {
      var place := f.place(loaded.configDir);
      var here := At(f, machine, loaded.configDir);
      if !here.secretsRead {
        return None;
      }
      var document := new SettingsDocument(here.doc);
      var migrated, conflicts, settingsChanged := document.MoveLegacy(f, here.legacy);
      if settingsChanged {
        machine := machine.(folders := machine.folders[place := here.(doc := document.doc)]);
      }
      var kept := WrittenFolder(FirstOf(here.username, loaded.username), FirstOf(here.password, loaded.password),
                                FirstOf(here.configDir, loaded.configDir), document.doc);
      if !Encodable(kept) {
        return None;
      }
      machine := machine.(folders := machine.folders[place := kept]);
      return Some(MigrationResult(settingsChanged || migrated != [], migrated, conflicts));
    }

    /** The command `config migrate`. */
    method LoadAndMigrate(f: Formats) returns (r: Option<MigrationResult>)
      modifies this
      ensures r.Some? <==> Loads(f, old(machine)) && CanMigrate(f, old(machine))
      ensures !Loads(f, old(machine)) || !At(f, old(machine), ConfigDir(f, old(machine))).secretsRead ==>
          machine == old(machine)
      ensures r.Some? ==> machine == AfterMigration(f, old(machine))
                          && r.value == Report(f, DocumentOf(f, old(machine)), Moved(f, old(machine)))
    {
      var loaded := Load(f, machine);
      if loaded.None? {
        return None;
      }
      r := Migrate(f, loaded.value);
    }

    /** The command twice in a row: if the second one runs, it changes nothing and reports nothing. */
    method MigrateTwice(f: Formats) returns (second: Option<MigrationResult>)
      requires Loads(f, machine) && CanMigrate(f, machine)
      modifies this
      ensures machine == AfterMigration(f, old(machine))
      ensures second.Some? <==> Loads(f, AfterMigration(f, old(machine))) && MigratedHere(f, old(machine)).secretsRead
      ensures second.Some? ==> second.value == MigrationResult(false, [], [])
    {
      ghost var start := machine;
      var first := LoadAndMigrate(f);
      SecondMigration(f, start);
      SameHere(f, start);
      second := LoadAndMigrate(f);
    }
  }

  /** What a second migration would write is what the first one wrote. */
  lemma SameHere(f: Formats, s: Machine)
    ensures MigratedHere(f, AfterMigration(f, s)) == MigratedHere(f, s)
  {
    SameDirectories(f, s);
    NothingToMove(f, DocumentOf(f, AfterMigration(f, s)), 0);
  }
}
