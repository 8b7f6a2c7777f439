/** Which settings keep their effective value through a migration, and when a migrated configuration still loads. */
module Preservation {
  import opened Wrappers
  import opened Text
  import opened Settings
  import opened Migration
  import Secrets

  /** Equal values; texts may differ in surrounding space. */
  predicate Same(a: Value, b: Value) {
    a == b || (a.TextValue? && b.TextValue? && Alike(a.text, b.text))
  }

  predicate Alike(a: string, b: string) {
    Trim(a) == Trim(b)
  }

  // ----- what the document says after the migration, told from before it -----

  /** The value moves into the document: its section is a mapping, and no old scalar says the same. */
  predicate Moves(f: Formats, s: Machine, m: Setting) {
    Rewritten(f, DocumentOf(f, s), m, Get(Moved(f, s), m))
  }

  /** The text that comes back of a text that the migration wrote. */
  function TextBack(f: Formats, value: string): string {
    var reading := f.readText(Scalar(value, TextStyle));
    if reading.Read? then reading.value else ""
  }

  /** What a moved value says once it stands in the document. */
  function StoredReading(f: Formats, m: Setting, value: string): Reading<Value> {
    match KindOf(m)
    case StringKind => ReadTextOf(f, m, TextBack(f, value))
    case BoolKind => Read(Flag(Normalize(f, value, BoolKind) == "true"))
    case IntKind => Read(Number(AtoiOrNearest(Trim(value))))
    case FloatKind =>
      match f.parseFloat(Trim(value)).value
      case Finite(x) => Read(Elapsed(f.nanoseconds(x)))
      case _ => Bad
  }

  function WillSay(f: Formats, s: Machine, m: Setting): Value {
    if Moves(f, s, m) then ReadOr(StoredReading(f, m, Get(Moved(f, s), m)), DefaultOf(s, m)) else DocumentSays(f, s, m)
  }

  /** No infinity or NaN is moved into the document. */
  predicate Storable(f: Formats, s: Machine, m: Setting) {
    Moves(f, s, m) && KindOf(m) == FloatKind ==> f.parseFloat(Trim(Get(Moved(f, s), m))).value.Finite?
  }

  /** An override that the migration does not touch: the environment's, or that of another directory's secrets.env. */
  predicate Shadowed(f: Formats, s: Machine, m: Setting) {
    Get(s.env, m) != "" || (Redirected(f, s) && Get(Legacy(f, s), m) != "")
  }

  lemma PrintedFlagReads(f: Formats, m: Setting, b: bool)
    requires Lawful(f) && KindOf(m) == BoolKind
    ensures ReadScalar(f, m, Printed(FormatBool(b))) == Read(Flag(b))
  {
    ParseBoolNeedsNoTrim(FormatBool(b));
    assert !f.isNull(Printed(FormatBool(b)));
  }

  lemma StoredReads(f: Formats, m: Setting, value: string)
    requires Lawful(f)
    ensures ReadScalar(f, m, YamlScalar(f, value, KindOf(m))) == StoredReading(f, m, value)
  {
    match KindOf(m) {
      case StringKind => assert LawfulText(f, value);
      case BoolKind => PrintedFlagReads(f, m, Normalize(f, value, BoolKind) == "true");
      case IntKind =>
        var n := AtoiOrNearest(Trim(value));
        assert f.readInt(Printed(Itoa(n))) == Read(n);
      case FloatKind => assert LawfulFloat(f, Trim(value));
    }
  }

  /** After the migration, document and overrides are what was told. */
  lemma AfterwardsReads(f: Formats, s: Machine, m: Setting)
    requires Lawful(f)
    ensures
      var after := AfterMigration(f, s);
      && ReadOptional(f, m, ScalarOf(DocumentOf(f, after), m))
         == (if Moves(f, s, m) then StoredReading(f, m, Get(Moved(f, s), m))
             else ReadOptional(f, m, ScalarOf(DocumentOf(f, s), m)))
      && DocumentSays(f, after, m) == WillSay(f, s, m)
      && Override(f, after, m) == if Shadowed(f, s, m) then Override(f, s, m) else ""
  {
    SameDirectories(f, s);
    MigrateFromScalar(f, DocumentOf(f, s), Moved(f, s), 0, m);
    StoredReads(f, m, Get(Moved(f, s), m));
  }

  // ----- preservation of one setting -----

  /** The value that a legacy text had as an override. */
  function LegacyValue(f: Formats, s: Machine, m: Setting): Value
    requires OverrideReadable(f, s, m) && Get(s.env, m) == "" && Get(Legacy(f, s), m) != ""
  {
    FromEnvironment(f, m, Get(Legacy(f, s), m)).value
  }

  /** When a setting keeps its value, told from before the migration. */
  predicate Survives(f: Formats, s: Machine, m: Setting)
    requires OverrideReadable(f, s, m)
  {
    if Shadowed(f, s, m) then true
    else if Redirected(f, s) then
      // what is moved was not loaded before: it must not move, or say nothing new
      !Moves(f, s, m) || Same(WillSay(f, s, m), DocumentSays(f, s, m))
    else if Get(Legacy(f, s), m) == "" then true
    else if Moves(f, s, m) then
      // numbers and flags come back as they were, texts if the document gives them back
      KindOf(m) != StringKind || Same(WillSay(f, s, m), LegacyValue(f, s, m))
    else
      // the legacy value is dropped for what the document says already
      Same(DocumentSays(f, s, m), LegacyValue(f, s, m))
  }

  /** A number or flag that was loaded is moved as it was. */
  lemma MovedNumberReads(f: Formats, m: Setting, value: string)
    requires Lawful(f) && KindOf(m) != StringKind && FromEnvironment(f, m, value).Some?
    ensures StoredReading(f, m, value) == Read(FromEnvironment(f, m, value).value)
  {
    match KindOf(m) {
      case BoolKind => ParseBoolNeedsNoTrim(value);
      case IntKind => AtoiNeedsNoTrim(value);
      case FloatKind => assert LawfulFloat(f, value);
    }
  }

  /** Only an infinity or NaN cannot be read back. */
  lemma StoredReadable(f: Formats, m: Setting, value: string)
    ensures StoredReading(f, m, value).Bad? <==> KindOf(m) == FloatKind && !f.parseFloat(Trim(value)).value.Finite?
  {}

  lemma ReadableAfterwards(f: Formats, s: Machine, m: Setting)
    requires Lawful(f) && YamlReadable(f, s, m) && OverrideReadable(f, s, m)
    ensures OverrideReadable(f, AfterMigration(f, s), m)
    ensures YamlReadable(f, AfterMigration(f, s), m) <==> Storable(f, s, m)
  {
    AfterwardsReads(f, s, m);
    StoredReadable(f, m, Get(Moved(f, s), m));
  }

  /**
   Under a fixed process environment, a migration leaves the override of a setting readable, its scalar readable
   exactly when the moved value is storable, and its effective value the same exactly when it survives.
   */
  lemma PlainPreserved(f: Formats, s: Machine, m: Setting)
    requires Lawful(f) && Plain(m)
    requires YamlReadable(f, s, m) && OverrideReadable(f, s, m)
    ensures OverrideReadable(f, AfterMigration(f, s), m)
    ensures YamlReadable(f, AfterMigration(f, s), m) <==> Storable(f, s, m)
    ensures Same(Effective(f, AfterMigration(f, s), m), Effective(f, s, m)) <==> Survives(f, s, m)
  {
    ReadableAfterwards(f, s, m);
    AfterwardsReads(f, s, m);
    if !Shadowed(f, s, m) && !Redirected(f, s) && Moves(f, s, m) && KindOf(m) != StringKind {
      MovedNumberReads(f, m, Get(Legacy(f, s), m));
    }
  }

  lemma OneLineReturns(f: Formats, m: Setting, value: string)
    requires Lawful(f) && KindOf(m) == StringKind && OneLine(value)
    ensures StoredReading(f, m, value) == ReadTextOf(f, m, value)
  {
    assert LawfulText(f, value);
  }

  /** A text says in the document what it says as an override, unless it is blank and ignored there. */
  lemma TextLikeOverride(f: Formats, m: Setting, value: string)
    requires Lawful(f) && KindOf(m) == StringKind
    ensures ReadTextOf(f, m, value).Read? <==> Trim(value) != "" || m == FixturesDir
    ensures ReadTextOf(f, m, value).Read? ==> Same(ReadTextOf(f, m, value).value, FromEnvironment(f, m, value).value)
    ensures Trim(value) == "" ==> Trim(FromEnvironment(f, m, value).value.text) == ""
  {
    assert LawfulText(f, value) && LawfulText(f, Trim(value));
    TrimTight(value);
  }

  /** A one-line legacy text that moves survives unless it is blank, where a blank one is ignored in the document. */
  lemma OneLineTextSurvives(f: Formats, s: Machine, m: Setting)
    requires Lawful(f) && KindOf(m) == StringKind && Plain(m) && !Redirected(f, s) && Get(s.env, m) == ""
    requires Moves(f, s, m) && OneLine(Get(Legacy(f, s), m))
    ensures Survives(f, s, m) <==>
            Trim(Get(Legacy(f, s), m)) != "" || m == FixturesDir || Trim(DefaultOf(s, m).text) == ""
  {
    var value := Get(Legacy(f, s), m);
    assert Moved(f, s) == Legacy(f, s);
    OneLineReturns(f, m, value);
    TextLikeOverride(f, m, value);
  }

  // ----- loading after a migration -----

  /** What the migration leaves of a setting can be loaded. */
  predicate StillLoads(f: Formats, s: Machine, m: Setting) {
    Storable(f, s, m) && (Plain(m) && !Shadowed(f, s, m) ==> Valid(m, WillSay(f, s, m)))
  }

  lemma StillSound(f: Formats, s: Machine, m: Setting)
    requires Lawful(f) && Sound(f, s, m)
    ensures Sound(f, AfterMigration(f, s), m) <==> StillLoads(f, s, m)
  {
    ReadableAfterwards(f, s, m);
    AfterwardsReads(f, s, m);
    assert Plain(m) ==>
        Effective(f, AfterMigration(f, s), m) == if Shadowed(f, s, m) then Effective(f, s, m) else WillSay(f, s, m);
  }

  lemma DatabaseIsNamed(f: Formats, s: Machine)
    requires Lawful(f)
    ensures DatabasePath(f, s) != ""
  {
    TrimTight("");
  }

  /** The secrets file of the first directory is not written, or its lines fit: a credential of the environment
      that is written there can be too long. */
  predicate SecretsStillRead(f: Formats, s: Machine) {
    Redirected(f, s) || MigratedHere(f, s).secretsRead
  }

  /**
   A configuration that loads still loads after the migration exactly when the written secrets can be read, no
   infinity or NaN is moved, whether load saw it or not, and what the document then says of each unshadowed
   setting is valid.
   */
  lemma LoadsAfterMigration(f: Formats, s: Machine)
    requires Lawful(f) && Loads(f, s)
    ensures Loads(f, AfterMigration(f, s)) <==> SecretsStillRead(f, s) && forall m :: StillLoads(f, s, m)
  {
    var after := AfterMigration(f, s);
    SameDirectories(f, s);
    MigrateFromScalar(f, DocumentOf(f, s), Moved(f, s), 0, DataDir);
    DatabaseIsNamed(f, after);
    forall m ensures Sound(f, after, m) <==> StillLoads(f, s, m) {
      assert Sound(f, s, m);
      StillSound(f, s, m);
    }
  }

  /** When every setting survives, only an overlong credential, or an infinity or NaN that something hides from load,
      can keep it from loading. */
  lemma SurvivorsLoad(f: Formats, s: Machine)
    requires Lawful(f) && Loads(f, s) && s.platformDataDir != ""
    requires forall m | Plain(m) :: OverrideReadable(f, s, m) && Survives(f, s, m)
    ensures Loads(f, AfterMigration(f, s)) <==> SecretsStillRead(f, s) && forall m :: Storable(f, s, m)
    ensures forall m | !Storable(f, s, m) :: Shadowed(f, s, m) || Redirected(f, s)
  {
    LoadsAfterMigration(f, s);
    forall m ensures StillLoads(f, s, m) <==> Storable(f, s, m) {
      assert Sound(f, s, m);
      if Plain(m) {
        PlainPreserved(f, s, m);
        AfterwardsReads(f, s, m);
        NonBlankDirectory(f, s);
      }
    }
    forall m | !Storable(f, s, m) ensures Shadowed(f, s, m) || Redirected(f, s) {
      assert Sound(f, s, m);
      if !Shadowed(f, s, m) && !Redirected(f, s) {
        MovedNumberReads(f, m, Get(Legacy(f, s), m));
      }
    }
  }

  lemma NonBlankDirectory(f: Formats, s: Machine)
    requires s.platformDataDir != ""
    ensures Valid(DataDir, WillSay(f, s, DataDir))
  {
    TrimTight("");
  }

  // ----- inputs that show each condition at work -----

  /** An empty `runtime:` section takes no value: the migration turns an offline client online. */
  lemma OfflineIsLost(f: Formats, s: Machine)
    requires Lawful(f) && s.env == map[] && !Redirected(f, s) && Legacy(f, s) == map[Offline := "true"]
    requires DocumentOf(f, s) == Document(map[RuntimeSection := SectionNode(map[], false)], true)
    ensures !Survives(f, s, Offline)
    ensures Effective(f, s, Offline) == Flag(true)
    ensures OverrideReadable(f, AfterMigration(f, s), Offline)
        && Effective(f, AfterMigration(f, s), Offline) == Flag(false)
  {
    PlainPreserved(f, s, Offline);
    AfterwardsReads(f, s, Offline);
  }

  /** Neither does it take a data directory, which falls back to the platform's. */
  lemma DirectoryIsLost(f: Formats, s: Machine)
    requires Lawful(f) && s.env == map[] && !Redirected(f, s) && Legacy(f, s) == map[DataDir := "/new"]
    requires DocumentOf(f, s) == Document(map[RuntimeSection := SectionNode(map[], false)], true)
    ensures Effective(f, s, DataDir) == TextValue("/new")
    ensures OverrideReadable(f, AfterMigration(f, s), DataDir)
    ensures Effective(f, AfterMigration(f, s), DataDir) == TextValue(s.platformDataDir)
  {
    PlainPreserved(f, s, DataDir);
    AfterwardsReads(f, s, DataDir);
  }

  /** A first directory A that leads to B: the legacy values of B take effect only by being migrated. */
  lemma RedirectedValueAppears(f: Formats, s: Machine)
    requires Lawful(f) && f.place("A") != f.place("B")
    requires s == Machine(map[], "", "", "", "A", "/data",
                          map[f.place("A") := EMPTY_FOLDER.(configDir := "B"), f.place("B") :=
                              EMPTY_FOLDER.(legacy := map[Offline := "true"])])
    ensures !Survives(f, s, Offline)
    ensures Effective(f, s, Offline) == Flag(false)
    ensures OverrideReadable(f, AfterMigration(f, s), Offline)
        && Effective(f, AfterMigration(f, s), Offline) == Flag(true)
  {
    assert ConfigDir(f, s) == "B" && Moved(f, s) == map[Offline := "true"] && Legacy(f, s) == map[];
    ParseBoolNeedsNoTrim("true");
    AfterwardsReads(f, s, Offline);
    PlainPreserved(f, s, Offline);
  }

  lemma TwoDigits(a: char, b: char)
    requires IsDigit(a) && IsDigit(b)
    ensures ReadDigits([a, b]) == DigitValue(a) * 10 + DigitValue(b)
  {
    assert [a, b][..1] == [a] && [a][..0] == [];
    assert ReadDigits([]) == 0;
    assert ReadDigits([a]) == DigitValue(a);
  }

  lemma ThreeDigits(a: char, b: char, c: char)
    requires IsDigit(a) && IsDigit(b) && IsDigit(c)
    ensures ReadDigits([a, b, c]) == DigitValue(a) * 100 + DigitValue(b) * 10 + DigitValue(c)
  {
    assert [a, b, c][..2] == [a, b];
    TwoDigits(a, b);
  }

  lemma AtoiOfDigits(s: string)
    requires s != [] && AllDigits(s) && ReadDigits(s) <= MAX_INT64
    ensures Atoi(s) == Some(ReadDigits(s))
  {
    assert !(s[0] == '+' || s[0] == '-');
  }

  lemma BothAreTen()
    ensures Atoi("10") == Some(10) && Atoi("010") == Some(10)
  {
    TwoDigits('1', '0');
    AtoiOfDigits(['1', '0']);
    ThreeDigits('0', '1', '0');
    AtoiOfDigits(['0', '1', '0']);
    assert "10" == ['1', '0'] && "010" == ['0', '1', '0'];
  }

  lemma SameNumberSaysTheSame(f: Formats, a: string, b: string)
    requires Atoi(a).Some? && Atoi(a) == Atoi(b)
    ensures SaysTheSame(f, Some(Printed(a)), b, IntKind)
  {
    var n := Atoi(a).value;
    AtoiNeedsNoTrim(a);
    AtoiNeedsNoTrim(b);
    AtoiItoa(n);
    ItoaIsTight(n);
    TrimTight(Itoa(n));
    assert Normalize(f, a, IntKind) == Itoa(n);
    assert YamlScalar(f, b, IntKind).text == Itoa(n);
  }

  /** A legacy value that does not move gives way to what the document says. */
  lemma DroppedForDocument(f: Formats, s: Machine, m: Setting)
    requires Lawful(f) && Plain(m) && Get(s.env, m) == "" && !Redirected(f, s) && Get(Legacy(f, s), m) != ""
    requires OverrideReadable(f, s, m) && !Moves(f, s, m)
    ensures Effective(f, s, m) == LegacyValue(f, s, m)
    ensures OverrideReadable(f, AfterMigration(f, s), m)
        && Effective(f, AfterMigration(f, s), m) == DocumentSays(f, s, m)
    ensures Survives(f, s, m) <==> Same(DocumentSays(f, s, m), LegacyValue(f, s, m))
  {
    AfterwardsReads(f, s, m);
  }

  lemma EqualNumberStays(f: Formats, s: Machine, m: Setting, kept: string)
    requires KindOf(m) == IntKind && ScalarOf(DocumentOf(f, s), m) == Some(Printed(kept))
    requires Atoi(kept).Some? && Atoi(kept) == Atoi(Get(Moved(f, s), m))
    ensures !Moves(f, s, m)
  {
    SameNumberSaysTheSame(f, kept, Get(Moved(f, s), m));
  }

  /** A kept number that the document reads as another one changes the setting. */
  lemma KeptNumberChanges(f: Formats, s: Machine, m: Setting, kept: string, value: string, n: int, k: int)
    requires Lawful(f) && KindOf(m) == IntKind && Get(s.env, m) == "" && !Redirected(f, s)
    requires Get(Legacy(f, s), m) == value && ScalarOf(DocumentOf(f, s), m) == Some(Printed(kept))
    requires Atoi(kept) == Atoi(value) == Some(n) && f.readInt(Printed(kept)) == Read(k) && k != n
    ensures OverrideReadable(f, s, m) && Effective(f, s, m) == Number(n) && !Survives(f, s, m)
    ensures OverrideReadable(f, AfterMigration(f, s), m) && Effective(f, AfterMigration(f, s), m) == Number(k)
  {
    assert Moved(f, s) == Legacy(f, s);
    EqualNumberStays(f, s, m, kept);
    DroppedForDocument(f, s, m);
    assert LegacyValue(f, s, m) == Number(n) && DocumentSays(f, s, m) == Number(k);
  }

  /** `010` says the same as 10 when normalized, so it is kept; but YAML reads it in octal. */
  lemma OctalIsKept(f: Formats, s: Machine)
    requires Lawful(f) && f.readInt(Printed("010")) == Read(8)
    requires s.env == map[] && !Redirected(f, s) && Legacy(f, s) == map[MaxParallel := "10"]
    requires DocumentOf(f, s) == Document(map[RuntimeSection := SectionNode(map[MaxParallel := Printed("010")], true)],
        true)
    ensures OverrideReadable(f, s, MaxParallel) && Effective(f, s, MaxParallel) == Number(10)
        && !Survives(f, s, MaxParallel)
    ensures OverrideReadable(f, AfterMigration(f, s), MaxParallel)
        && Effective(f, AfterMigration(f, s), MaxParallel) == Number(8)
  {
    BothAreTen();
    KeptNumberChanges(f, s, MaxParallel, "010", "10", 10, 8);
  }

  /** Without any files and variables, loading succeeds with the built-in settings. */
  lemma FreshInstallation(f: Formats, s: Machine, m: Setting)
    requires Lawful(f) && s == Machine(map[], "", "", "", "A", "/data", map[])
    ensures Loads(f, s) && DatabasePath(f, s) == f.databaseIn("/data")
    ensures OverrideReadable(f, s, m)
    ensures Plain(m) ==>
      Effective(f, s, m) ==
      match m
      case DataDir => TextValue("/data")
      case LogLevel => TextValue("INFO")
      case TransitousBaseURL => TextValue("https://api.transitous.org/api/")
      case DbPath | FixturesDir => TextValue("")
      case Offline | TransitousEnabled => Flag(false)
      case VerifyTls => Flag(true)
      case ConnectTimeout => Elapsed(5_000_000_000)
      case ReadTimeout => Elapsed(20_000_000_000)
      case ToolTimeout => Elapsed(15_000_000_000)
      case MaxParallel => Number(6)
      case FuzzyThreshold => Number(72)
      case BriefingDays => Number(90)
      case BriefingCount => Number(100)
      case VelovDays => Number(30)
      case VelovCount => Number(10_000)
  {
    DatabaseIsNamed(f, s);
    forall k ensures Sound(f, s, k) {
      DefaultIsSound(f, s, k);
    }
  }

  /** A password of the environment that does not fit on a line is written into the secrets file, which then
      cannot be read: the configuration loads before the migration and not after it. */
  lemma LongPasswordStopsLoading(f: Formats, s: Machine, password: string)
    requires Lawful(f) && |password| > Secrets.MAXIMUM_LINE_BYTES && Secrets.Encodable(password)
    requires s == Machine(map[], "", "", password, "A", "/data", map[f.place("A") := EMPTY_FOLDER])
    ensures Loads(f, s) && CanMigrate(f, s) && !Loads(f, AfterMigration(f, s))
  {
    assert !Redirected(f, s) && Password(f, s) == password;
    DatabaseIsNamed(f, s);
    forall m ensures Sound(f, s, m) {
      DefaultIsSound(f, s, m);
    }
    Secrets.LongPasswordDoesNotFit("", password, "A");
    LoadsAfterMigration(f, s);
  }

  /** A legacy infinity that the environment hides: the configuration loads before the migration and not after it. */
  lemma HiddenInfinityStopsLoading(f: Formats, s: Machine)
    requires Lawful(f) && f.nanoseconds(5.0) == 5 * SECOND
    requires f.parseFloat("5") == ParsedFloat(Finite(5.0), true)
        && f.parseFloat("inf") == ParsedFloat(PlusInfinity, true)
    requires s == Machine(map[ConnectTimeout := "5"], "", "", "", "A", "/data",
                          map[f.place("A") := EMPTY_FOLDER.(legacy := map[ConnectTimeout := "inf"])])
    ensures Loads(f, s) && !Loads(f, AfterMigration(f, s))
  {
    FiveSecondsLoad(f, s);
    assert !Redirected(f, s) && Moved(f, s) == map[ConnectTimeout := "inf"]
        && ScalarOf(DocumentOf(f, s), ConnectTimeout) == None;
    assert LawfulFloat(f, "inf");
    assert !StillLoads(f, s, ConnectTimeout);
    LoadsAfterMigration(f, s);
  }

  lemma DefaultIsSound(f: Formats, s: Machine, m: Setting)
    requires ScalarOf(DocumentOf(f, s), m) == None && Override(f, s, m) == "" && s.platformDataDir != ""
    ensures Sound(f, s, m)
  {
  }

  lemma FiveSecondsLoad(f: Formats, s: Machine)
    requires Lawful(f) && f.parseFloat("5") == ParsedFloat(Finite(5.0), true) && f.nanoseconds(5.0) == 5 * SECOND
    requires s.env == map[ConnectTimeout := "5"] && s.platformDataDir != "" && ConfigDir(f, s) != ""
    requires At(f, s, FirstDir(s)).secretsRead
    requires DocumentOf(f, s) == Document(map[], true) && forall m | m != ConnectTimeout :: Get(Legacy(f, s), m) == ""
    ensures Loads(f, s)
  {
    DatabaseIsNamed(f, s);
    forall m ensures Sound(f, s, m) {
      assert ScalarOf(DocumentOf(f, s), m) == None;
      if m != ConnectTimeout {
        DefaultIsSound(f, s, m);
      }
    }
  }
}
