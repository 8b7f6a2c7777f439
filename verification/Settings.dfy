/** Layered settings: process environment, legacy secrets, settings.yaml, defaults, and their directories. */
module Settings {
  import opened Wrappers
  import opened Text

  /** The mapped settings, in the order of the mapping table. */
  datatype Setting =
    | DataDir | DbPath | FixturesDir | LogLevel | Offline | MaxParallel | TransitousEnabled | TransitousBaseURL
    | VerifyTls | ConnectTimeout | ReadTimeout | ToolTimeout | FuzzyThreshold
    | BriefingDays | BriefingCount | VelovDays | VelovCount

  datatype Kind = StringKind | BoolKind | IntKind | FloatKind

  datatype Section = RuntimeSection | NetworkSection | PlacesSection | RetentionSection

  const ALL: seq<Setting> :=
    [DataDir, DbPath, FixturesDir, LogLevel, Offline, MaxParallel, TransitousEnabled, TransitousBaseURL,
     VerifyTls, ConnectTimeout, ReadTimeout, ToolTimeout, FuzzyThreshold, BriefingDays, BriefingCount, VelovDays,
         VelovCount]

  function KindOf(m: Setting): Kind {
    match m
    case DataDir | DbPath | FixturesDir | LogLevel | TransitousBaseURL => StringKind
    case Offline | TransitousEnabled | VerifyTls => BoolKind
    case ConnectTimeout | ReadTimeout | ToolTimeout => FloatKind
    case _ => IntKind
  }

  function SectionOf(m: Setting): Section {
    match m
    case VerifyTls | ConnectTimeout | ReadTimeout | ToolTimeout => NetworkSection
    case FuzzyThreshold => PlacesSection
    case BriefingDays | BriefingCount | VelovDays | VelovCount => RetentionSection
    case _ => RuntimeSection
  }

  /** The place of a setting in the mapping table. */
  function Rank(m: Setting): (i: nat)
    ensures i < |ALL|
  {
    match m
    case DataDir => 0
    case DbPath => 1
    case FixturesDir => 2
    case LogLevel => 3
    case Offline => 4
    case MaxParallel => 5
    case TransitousEnabled => 6
    case TransitousBaseURL => 7
    case VerifyTls => 8
    case ConnectTimeout => 9
    case ReadTimeout => 10
    case ToolTimeout => 11
    case FuzzyThreshold => 12
    case BriefingDays => 13
    case BriefingCount => 14
    case VelovDays => 15
    case VelovCount => 16
  }

  lemma RankListed(i: nat)
    requires i < |ALL|
    ensures Rank(ALL[i]) == i
    ensures forall m :: Rank(m) == i ==> m == ALL[i]
  {}

  /** The database path depends on the data directory; every other setting stands alone. */
  predicate Plain(m: Setting) {
    m != DbPath
  }

  /** Durations are nanoseconds. */
  datatype Value = TextValue(text: string) | Flag(flag: bool) | Number(number: int) | Elapsed(nanoseconds: int)

  // ----- scalars and their formats -----

  /** A 64-bit floating point number. */
  datatype Float = Finite(x: real) | PlusInfinity | MinusInfinity | NotANumber

  /** What strconv.ParseFloat returns: a number, and whether there was no error. */
  datatype ParsedFloat = ParsedFloat(value: Float, ok: bool)

  /** How a scalar is written: as the migration writes numbers and flags, as it writes texts, or in any other
      way, with quotes, tags or an alias. */
  datatype Style = PrintedStyle | TextStyle | OtherStyle(form: nat)

  datatype Scalar = Scalar(text: string, style: Style)

  /** What decoding a scalar into an optional field yields: nothing for a null, a value, or an error. */
  datatype Reading<+T> = Unset | Read(value: T) | Bad

  /** The formats of strconv and of the YAML library, the conversion of seconds to a duration, upper-casing,
      the path of the database in a directory, and the directory that a name leads to. */
  datatype Formats = Formats(parseFloat: string -> ParsedFloat, formatFloat: Float -> string, nanoseconds: real -> int,
                             upper: string -> string,
                             readText: Scalar -> Reading<string>, readInt: Scalar -> Reading<int>,
                             readFloat: Scalar -> Reading<Float>, isNull: Scalar -> bool,
                             databaseIn: string -> string, place: string -> string)

  function Printed(text: string): Scalar {
    Scalar(text, PrintedStyle)
  }

  /** Text without line breaks, which the YAML library gives back as it was written. */
  predicate OneLine(text: string) {
    forall i | 0 <= i < |text| :: text[i] !in {'\n', '\r', '\U{0085}', '\U{2028}', '\U{2029}'}
  }

  /** What holds of the libraries: numbers, flags and one-line texts that the migration writes are read back,
      other texts are read as some text, an infinity or a NaN is written as a text that is no number,
      and upper-casing leaves spaces alone. */
  ghost predicate Lawful(f: Formats) {
    && (forall n | -MAX_INT64 - 1 <= n <= MAX_INT64 :: f.readInt(Printed(Itoa(n))) == Read(n))
    && (forall text: string :: LawfulFloat(f, text))
    && (forall text: string :: LawfulText(f, text))
    && (forall b: bool :: !f.isNull(Printed(FormatBool(b))))
    && f.upper("") == "" && (forall dir: string :: f.databaseIn(dir) != "")
  }

  ghost predicate LawfulFloat(f: Formats, text: string) {
    && (f.parseFloat(text).ok ==> Trim(text) == text)
    && var x := f.parseFloat(text).value;
       f.readFloat(Printed(f.formatFloat(x))) == if x.Finite? then Read(x) else Bad
  }

  ghost predicate LawfulText(f: Formats, text: string) {
    && f.readText(Scalar(text, TextStyle)).Read?
    && (OneLine(text) ==> f.readText(Scalar(text, TextStyle)) == Read(text))
    && Trim(f.upper(text)) == f.upper(Trim(text))
  }

  // ----- the settings document -----

  /** The scalars of a section.  One that is no mapping, such as an empty one or an alias, cannot be written. */
  datatype SectionNode = SectionNode(fields: map<Setting, Scalar>, writable: bool)

  /** `rest` tells that everything else in the document decodes and is valid. */
  datatype Document = Document(sections: map<Section, SectionNode>, rest: bool)

  function ScalarOf(doc: Document, m: Setting): Option<Scalar> {
    if SectionOf(m) in doc.sections && m in doc.sections[SectionOf(m)].fields
    then Some(doc.sections[SectionOf(m)].fields[m])
    else None
  }

  /** setSettingsValue can write: the section is absent or a mapping. */
  predicate SectionWritable(doc: Document, m: Setting) {
    SectionOf(m) in doc.sections ==> doc.sections[SectionOf(m)].writable
  }

  /** What a text says for a setting; a blank one says nothing, except for the fixtures directory. */
  function ReadTextOf(f: Formats, m: Setting, text: string): Reading<Value> {
    if m == FixturesDir then Read(TextValue(text))
    else if Trim(text) == "" then Unset
    else if m == LogLevel then Read(TextValue(f.upper(Trim(text)))) else Read(TextValue(text))
  }

  /** How applyYAML reads a scalar. */
  function ReadScalar(f: Formats, m: Setting, scalar: Scalar): Reading<Value> {
    match KindOf(m)
    case StringKind =>
      (match f.readText(scalar) case Unset => Unset case Bad => Bad case Read(text) => ReadTextOf(f, m, text))
    case BoolKind =>
      if f.isNull(scalar) then Unset
      else (match ParseBool(Trim(scalar.text)) case Some(b) => Read(Flag(b)) case None => Bad)
    case IntKind => (match f.readInt(scalar) case Unset => Unset case Bad => Bad case Read(n) => Read(Number(n)))
    case FloatKind =>
      match f.readFloat(scalar)
      case Unset => Unset
      case Read(Finite(x)) => Read(Elapsed(f.nanoseconds(x)))
      case _ => Bad
  }

  function ReadOptional(f: Formats, m: Setting, scalar: Option<Scalar>): Reading<Value> {
    match scalar
    case None => Unset
    case Some(found) => ReadScalar(f, m, found)
  }

  /** How applyEnvironment reads one nonempty value; None is an error. */
  function FromEnvironment(f: Formats, m: Setting, value: string): Option<Value> {
    match KindOf(m)
    case StringKind => Some(TextValue(if m == LogLevel then f.upper(value) else value))
    case BoolKind => (match ParseBool(value) case Some(b) => Some(Flag(b)) case None => None)
    case IntKind => (match Atoi(value) case Some(n) => Some(Number(n)) case None => None)
    case FloatKind =>
      var parsed := f.parseFloat(value);
      if parsed.ok && parsed.value.Finite? then Some(Elapsed(f.nanoseconds(parsed.value.x))) else None
  }

  // ----- the files and the process -----

  type Values = map<Setting, string>

  function Get(values: Values, m: Setting): string {
    if m in values then values[m] else ""
  }

  function FirstOf(a: string, b: string): string {
    if a != "" then a else b
  }

  /** A configuration directory: whether its secrets.env can be read, and what that file and settings.yaml hold;
      absent files hold nothing. */
  datatype Folder = Folder(secretsRead: bool, legacy: Values, username: string, password: string, configDir: string,
      doc: Document)

  const EMPTY_FOLDER := Folder(true, map[], "", "", "", Document(map[], true))

  /** The process environment, the platform's directories, and the configuration directories by place. */
  datatype Machine = Machine(env: Values, envConfigDir: string, envUsername: string, envPassword: string,
                             platformConfigDir: string, platformDataDir: string, folders: map<string, Folder>)

  function At(f: Formats, s: Machine, name: string): Folder {
    if f.place(name) in s.folders then s.folders[f.place(name)] else EMPTY_FOLDER
  }

  /** The directory whose secrets.env is loaded. */
  function FirstDir(s: Machine): string {
    FirstOf(s.envConfigDir, s.platformConfigDir)
  }

  /** The directory whose settings.yaml is loaded, and whose secrets.env is migrated: the first one's
      secrets.env can lead there. */
  function ConfigDir(f: Formats, s: Machine): string {
    FirstOf(s.envConfigDir, FirstOf(At(f, s, FirstDir(s)).configDir, FirstDir(s)))
  }

  /** The two directories differ, and so do their secrets.env files. */
  predicate Redirected(f: Formats, s: Machine) {
    f.place(FirstDir(s)) != f.place(ConfigDir(f, s))
  }

  /** The legacy values that load sees. */
  function Legacy(f: Formats, s: Machine): Values {
    At(f, s, FirstDir(s)).legacy
  }

  function DocumentOf(f: Formats, s: Machine): Document {
    At(f, s, ConfigDir(f, s)).doc
  }

  /** The value that applyEnvironment sees: the process environment, else the secrets file. */
  function Override(f: Formats, s: Machine, m: Setting): string {
    FirstOf(Get(s.env, m), Get(Legacy(f, s), m))
  }

  function Username(f: Formats, s: Machine): string {
    FirstOf(s.envUsername, At(f, s, FirstDir(s)).username)
  }

  function Password(f: Formats, s: Machine): string {
    FirstOf(s.envPassword, At(f, s, FirstDir(s)).password)
  }

  // ----- the effective settings -----

  const SECOND := 1_000_000_000

  function DefaultOf(s: Machine, m: Setting): Value {
    match m
    case DataDir => TextValue(s.platformDataDir)
    case DbPath | FixturesDir => TextValue("")
    case LogLevel => TextValue("INFO")
    case Offline | TransitousEnabled => Flag(false)
    case VerifyTls => Flag(true)
    case MaxParallel => Number(6)
    case TransitousBaseURL => TextValue("https://api.transitous.org/api/")
    case ConnectTimeout => Elapsed(5 * SECOND)
    case ReadTimeout => Elapsed(20 * SECOND)
    case ToolTimeout => Elapsed(15 * SECOND)
    case FuzzyThreshold => Number(72)
    case BriefingDays => Number(90)
    case BriefingCount => Number(100)
    case VelovDays => Number(30)
    case VelovCount => Number(10000)
  }

  predicate YamlReadable(f: Formats, s: Machine, m: Setting) {
    !ReadOptional(f, m, ScalarOf(DocumentOf(f, s), m)).Bad?
  }

  predicate OverrideReadable(f: Formats, s: Machine, m: Setting) {
    Override(f, s, m) != "" ==> FromEnvironment(f, m, Override(f, s, m)).Some?
  }

  function ReadOr(reading: Reading<Value>, fallback: Value): Value {
    if reading.Read? then reading.value else fallback
  }

  /** What the document and the defaults say of a setting. */
  function DocumentSays(f: Formats, s: Machine, m: Setting): Value {
    ReadOr(ReadOptional(f, m, ScalarOf(DocumentOf(f, s), m)), DefaultOf(s, m))
  }

  /** The value of a plain setting: the first of override, YAML scalar and default. */
  function Effective(f: Formats, s: Machine, m: Setting): Value
    requires Plain(m) && OverrideReadable(f, s, m)
  {
    if Override(f, s, m) != "" then FromEnvironment(f, m, Override(f, s, m)).value else DocumentSays(f, s, m)
  }

  /** The text of a path in the document; a null is no text. */
  function TextIn(f: Formats, scalar: Option<Scalar>): Option<string> {
    if scalar.Some? && f.readText(scalar.value).Read? then Some(f.readText(scalar.value).value) else None
  }

  predicate NonBlank(text: Option<string>) {
    text.Some? && Trim(text.value) != ""
  }

  /** The directory after defaults and YAML; `w` is the directory override. */
  function YamlDir(w: string, y: Option<string>, platformDir: string): string {
    if NonBlank(y) then y.value else FirstOf(w, platformDir)
  }

  /** The effective database, from the directory override `w` and that of the database `q`, and the YAML paths
      `y` and `p`.  A database that looks like the default one follows the directory override. */
  function Database(f: Formats, w: string, q: string, y: Option<string>, p: Option<string>,
      platformDir: string): string {
    var database :=
      if NonBlank(p) then p.value
      else if NonBlank(y) && p == None then f.databaseIn(y.value)
      else f.databaseIn(FirstOf(w, platformDir));
    if q != "" then q
    else if w != "" && database == f.databaseIn(YamlDir(w, y, platformDir)) then f.databaseIn(w)
    else database
  }

  function DatabasePath(f: Formats, s: Machine): string {
    Database(f, Override(f, s, DataDir), Override(f, s, DbPath),
             TextIn(f, ScalarOf(DocumentOf(f, s), DataDir)), TextIn(f, ScalarOf(DocumentOf(f, s), DbPath)),
                 s.platformDataDir)
  }

  /** The checks of validate on one setting. */
  predicate Valid(m: Setting, value: Value) {
    match value
    case TextValue(text) => m == DataDir ==> text != ""
    case Elapsed(nanoseconds) => nanoseconds > 0
    case Number(n) =>
      && (m == MaxParallel ==> n >= 1)
      && (m == FuzzyThreshold ==> 0 <= n <= 100)
      && (SectionOf(m) == RetentionSection ==> n >= 0)
    case Flag(_) => true
  }

  predicate Sound(f: Formats, s: Machine, m: Setting) {
    YamlReadable(f, s, m) && OverrideReadable(f, s, m) && (Plain(m) ==> Valid(m, Effective(f, s, m)))
  }

  /** When load succeeds. */
  predicate Loads(f: Formats, s: Machine) {
    && At(f, s, FirstDir(s)).secretsRead && DocumentOf(f, s).rest && ConfigDir(f, s) != "" && DatabasePath(f, s) != ""
    && (forall m :: Sound(f, s, m))
  }

  lemma SoundParts(f: Formats, s: Machine)
    ensures (forall m :: Sound(f, s, m)) <==>
      && (forall m :: YamlReadable(f, s, m)) && (forall m :: OverrideReadable(f, s, m))
      && (forall m | Plain(m) :: Valid(m, Effective(f, s, m)))
  {
    if forall m :: Sound(f, s, m) {
      forall m ensures YamlReadable(f, s, m) && OverrideReadable(f, s, m)
          && (Plain(m) ==> Valid(m, Effective(f, s, m))) {
        assert Sound(f, s, m);
      }
    }
  }

  // ----- loading -----

  datatype Config = Config(configDir: string, username: string, password: string, dbPath: string,
      plain: map<Setting, Value>)

  /** load: read the secrets of the first directory, then defaults, YAML and overrides in turn, then validate. */
  method Load(f: Formats, s: Machine) returns (r: Option<Config>)
    ensures r.Some? <==> Loads(f, s)
    ensures r.Some? ==>
      && (forall m :: OverrideReadable(f, s, m))
      && r.value.configDir == ConfigDir(f, s) && r.value.dbPath == DatabasePath(f, s)
      && r.value.username == Username(f, s) && r.value.password == Password(f, s)
      && forall m | Plain(m) ::
           m in r.value.plain && r.value.plain[m] == Effective(f, s, m) && Limit(m, r.value.plain[m])
  {
    SoundParts(f, s);
    var secrets := At(f, s, FirstDir(s));
    var configDir := ConfigDir(f, s);
    var doc := At(f, s, configDir).doc;
    if !secrets.secretsRead || !doc.rest || configDir == "" {
      return None;
    }
    var plain, ok := YamlPlain(f, s, doc);
    if ok {
      plain, ok := OverridePlain(f, s, plain);
    }
    if !ok {
      return None;
    }
    ok := Validate(f, s, plain);
    var dbPath := LoadDatabase(f, s, doc);
    if !ok || dbPath == "" {
      return None;
    }
    return Some(Config(configDir, FirstOf(s.envUsername, secrets.username), FirstOf(s.envPassword, secrets.password),
        dbPath, plain));
  }

  /** The assignments to the data directory and the database path, in their order. */
  method LoadDatabase(f: Formats, s: Machine, doc: Document) returns (dbPath: string)
    requires doc == DocumentOf(f, s)
    ensures dbPath == DatabasePath(f, s)
  {
    var w := Override(f, s, DataDir);
    var dataDir := FirstOf(w, s.platformDataDir);
    dbPath := f.databaseIn(dataDir);
    var y, p := TextIn(f, ScalarOf(doc, DataDir)), TextIn(f, ScalarOf(doc, DbPath));
    if NonBlank(y) {
      dataDir := y.value;
      if p == None {
        dbPath := f.databaseIn(dataDir);
      }
    }
    if NonBlank(p) {
      dbPath := p.value;
    }
    if w != "" {
      if dbPath == f.databaseIn(dataDir) {
        dbPath := f.databaseIn(w);
      }
      dataDir := w;
    }
    if Override(f, s, DbPath) != "" {
      dbPath := Override(f, s, DbPath);
    }
  }

  method YamlPlain(f: Formats, s: Machine, doc: Document) returns (plain: map<Setting, Value>, ok: bool)
    requires doc == DocumentOf(f, s)
    ensures ok <==> forall m :: YamlReadable(f, s, m)
    ensures ok ==> forall m :: m in plain && plain[m] == DocumentSays(f, s, m)
  {
    plain := map m: Setting | m in ALL_SET :: DefaultOf(s, m);
    ok := false;
    for i := 0 to |ALL|
      invariant forall m | Rank(m) < i :: YamlReadable(f, s, m)
      invariant forall m :: m in plain && plain[m] == (if Rank(m) < i then DocumentSays(f, s, m) else DefaultOf(s, m))
    {
      var m := ALL[i];
      RankListed(i);
      var reading := ReadOptional(f, m, ScalarOf(doc, m));
      if reading.Bad? {
        assert !YamlReadable(f, s, m);
        return;
      }
      if reading.Read? {
        plain := plain[m := reading.value];
      }
    }
    ok := true;
  }

  const ALL_SET: set<Setting> := set m: Setting | true

  method OverridePlain(f: Formats, s: Machine, start: map<Setting, Value>)
      returns (plain: map<Setting, Value>, ok: bool)
    requires forall m :: m in start && start[m] == DocumentSays(f, s, m)
    ensures ok <==> forall m :: OverrideReadable(f, s, m)
    ensures ok ==> forall m | Plain(m) :: m in plain && plain[m] == Effective(f, s, m)
  {
    plain, ok := start, false;
    for i := 0 to |ALL|
      invariant forall m | Rank(m) < i :: OverrideReadable(f, s, m)
      invariant forall m :: m in plain
      invariant forall m | Plain(m) :: plain[m] == (if Rank(m) < i then Effective(f, s, m) else DocumentSays(f, s, m))
    {
      var m := ALL[i];
      RankListed(i);
      var override := Override(f, s, m);
      if override != "" {
        var value := FromEnvironment(f, m, override);
        if value == None {
          assert !OverrideReadable(f, s, m);
          return;
        }
        plain := plain[m := value.value];
      }
    }
    ok := true;
  }

  // ----- the limits of a loaded configuration, setting by setting -----

  predicate AtLeast(value: Value, least: int) {
    value.Number? && value.number >= least
  }

  predicate Positive(value: Value) {
    value.Elapsed? && value.nanoseconds > 0
  }

  /** A value of a setting's kind. */
  predicate Typed(m: Setting, value: Value) {
    match KindOf(m)
    case StringKind => value.TextValue?
    case BoolKind => value.Flag?
    case IntKind => value.Number?
    case FloatKind => value.Elapsed?
  }

  lemma DocumentTyped(f: Formats, s: Machine, m: Setting)
    requires Plain(m)
    ensures Typed(m, DocumentSays(f, s, m))
  {
    assert Typed(m, DefaultOf(s, m));
  }

  lemma EffectiveTyped(f: Formats, s: Machine, m: Setting)
    requires Plain(m) && OverrideReadable(f, s, m)
    ensures Typed(m, Effective(f, s, m))
  {
    DocumentTyped(f, s, m);
    if Override(f, s, m) != "" {
      OverrideTyped(f, m, Override(f, s, m));
    }
  }

  lemma OverrideTyped(f: Formats, m: Setting, value: string)
    requires FromEnvironment(f, m, value).Some?
    ensures Typed(m, FromEnvironment(f, m, value).value)
  {
  }

  /** The limit on one setting. */
  predicate Limit(m: Setting, value: Value) {
    match m
    case DataDir => value != TextValue("")
    case ConnectTimeout | ReadTimeout | ToolTimeout => Positive(value)
    case MaxParallel => AtLeast(value, 1)
    case FuzzyThreshold => AtLeast(value, 0) && !AtLeast(value, 101)
    case BriefingDays | BriefingCount | VelovDays | VelovCount => AtLeast(value, 0)
    case _ => true
  }

  lemma LimitIsValid(m: Setting, value: Value)
    requires Typed(m, value)
    ensures Limit(m, value) <==> Valid(m, value)
  {
  }

  method Validate(f: Formats, s: Machine, plain: map<Setting, Value>) returns (ok: bool)
    requires forall m :: OverrideReadable(f, s, m)
    requires forall m | Plain(m) :: m in plain && plain[m] == Effective(f, s, m)
    ensures ok <==> forall m | Plain(m) :: Valid(m, Effective(f, s, m))
    ensures ok <==> forall m | Plain(m) :: Limit(m, plain[m])
  {
    ok := true;
    forall m | Plain(m) ensures Limit(m, plain[m]) <==> Valid(m, plain[m]) {
      EffectiveTyped(f, s, m);
      LimitIsValid(m, plain[m]);
    }
    for i := 0 to |ALL|
      invariant ok <==> forall m | Plain(m) && Rank(m) < i :: Valid(m, Effective(f, s, m))
    {
      var m := ALL[i];
      RankListed(i);
      if Plain(m) && !Valid(m, plain[m]) {
        ok := false;
        assert !Valid(m, Effective(f, s, m));
      }
    }
  }
}
