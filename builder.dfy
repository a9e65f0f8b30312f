/** The string and list bookkeeping of the Android build script: property files,
    the resource-copy path filters, and the permission/activity aggregation that
    fills the placeholders of AndroidManifest.xml. Paths are POSIX paths. */
module Builder {
  import opened Wrappers
  import opened Strings

  // ---------------------------------------------------------------------------
  // dequote

  /** Drops the surrounding quotes of a value that starts with a double quote. The last
      character goes whatever it is, and a lone quote becomes the empty string. */
  function Dequote(s: string): (r: string)
    ensures !(|s| > 0 && s[0] == '"') ==> r == s
    ensures |s| > 0 && s[0] == '"' ==>
              |r| == (if |s| >= 2 then |s| - 2 else 0) && r == s[1..1 + |r|]
  {
    if |s| > 0 && s[0] == '"' then (if |s| >= 2 then s[1..|s| - 1] else "") else s
  }

  /** Quoting a value and dequoting it gives the value back. */
  lemma DequoteQuoted(x: string)
    ensures Dequote("\"" + x + "\"") == x
  {
    assert ("\"" + x + "\"")[1..|x| + 1] == x;
  }

  // ---------------------------------------------------------------------------
  // read_properties

  /** The characters that end a property key. */
  const Separators: set<char> := {':', '=', ' '}

  datatype Property = Property(key: string, value: string)

  /** A stripped line that is blank or a comment. */
  predicate Ignored(propDef: string) {
    |propDef| == 0 || propDef[0] == '!' || propDef[0] == '#'
  }

  /** A `find` result where -1 stands for "not found", read as the end of the line. */
  function Present(pos: int, len: nat): nat
    requires -1 <= pos <= len
  {
    if pos == -1 then len else pos
  }

  function Min(a: nat, b: nat): nat {
    if a <= b then a else b
  }

  /** The smallest of the positions of `:`, `=` and space, and the line length. */
  function KeyEnd(propDef: string): (found: nat)
    ensures found <= |propDef|
    ensures forall j :: 0 <= j < found ==> propDef[j] !in Separators
    ensures found < |propDef| ==> propDef[found] in Separators
  {
    var n := |propDef|;
    Min(Min(Present(FindChar(propDef, ':'), n), Present(FindChar(propDef, '='), n)),
        Min(Present(FindChar(propDef, ' '), n), n))
  }

  /** The key: the text before `found`, right-stripped. */
  function PropertyKey(propDef: string, found: nat): (key: string)
    requires found <= |propDef|
    requires forall j :: 0 <= j < found ==> propDef[j] !in Separators
    ensures |key| <= found && key == propDef[..|key|]
    ensures forall j :: |key| <= j < found ==> IsSpace(propDef[j])
    ensures |key| > 0 ==> !IsSpace(key[|key| - 1])
    ensures forall j :: 0 <= j < |key| ==> key[j] !in Separators
  {
    var key := RStrip(propDef[..found]);
    assert propDef[..found][..|key|] == propDef[..|key|];
    key
  }

  /** `value` is `rest` from position `a`, the end of its leading separators, without the
      trailing whitespace. */
  predicate IsValueAt(rest: string, a: nat, value: string) {
    a + |value| <= |rest| && value == rest[a..a + |value|]
    && (forall i :: 0 <= i < a ==> rest[i] in Separators)
    && (a < |rest| ==> rest[a] !in Separators)
    && (forall i :: a + |value| <= i < |rest| ==> IsSpace(rest[i]))
    && (|value| > 0 ==> !IsSpace(value[|value| - 1]))
  }

  /** The value: the rest of the line without its leading separators and trailing whitespace. */
  function PropertyValue(rest: string): (value: string)
    ensures exists a :: IsValueAt(rest, a, value)
  {
    var trimmed := LStripSet(rest, Separators);
    TrimmedValueAt(rest, trimmed);
    RStrip(trimmed)
  }

  /** Stripping the trailing whitespace of the separator-stripped rest leaves a value placed
      where the separators end. */
  lemma TrimmedValueAt(rest: string, trimmed: string)
    requires trimmed == LStripSet(rest, Separators)
    ensures IsValueAt(rest, |rest| - |trimmed|, RStrip(trimmed))
  {
    var a := |rest| - |trimmed|;
    var v := RStrip(trimmed);
    assert IsValueAt(rest, a, v) by {
      SuffixStripped(rest, a, v);
      if a < |rest| {
        assert rest[a] == trimmed[0];
      }
    }
  }

  /** The trailing-whitespace strip of a suffix of `rest` is a slice of `rest` followed only
      by whitespace. */
  lemma SuffixStripped(rest: string, a: nat, v: string)
    requires a <= |rest| && v == RStrip(rest[a..])
    ensures a + |v| <= |rest| && v == rest[a..a + |v|]
    ensures forall i :: a + |v| <= i < |rest| ==> IsSpace(rest[i])
  {
    var t := rest[a..];
    assert v == t[..|v|];
    assert forall i :: a + |v| <= i < |rest| ==> rest[i] == t[i - a];
  }

  /** One line of a properties file, or None for a blank line or a comment. */
  function ParseLine(line: string): (r: Option<Property>)
    ensures r.None? <==> Ignored(Strip(line))
  {
    var propDef := Strip(line);
    if Ignored(propDef) then None
    else
      var found := KeyEnd(propDef);
      Some(Property(PropertyKey(propDef, found), PropertyValue(propDef[found..])))
  }

  /** A stripped line is empty or ends in a non-space. */
  lemma StripEndsInNonSpace(s: string)
    ensures |Strip(s)| > 0 ==> !IsSpace(Strip(s)[|Strip(s)| - 1])
  {
    var rs := RStrip(s);
    assert Strip(s) == rs[|rs| - |Strip(s)|..];
  }

  /** A stripped line without separator characters has no separator before its end. */
  lemma KeyEndWithoutSeparator(propDef: string)
    requires forall j :: 0 <= j < |propDef| ==> propDef[j] !in Separators
    ensures KeyEnd(propDef) == |propDef|
  {
    var n := |propDef|;
    assert FindChar(propDef, ':') == -1;
    assert FindChar(propDef, '=') == -1;
    assert FindChar(propDef, ' ') == -1;
  }

  /** Right-stripping a string that does not end in whitespace changes nothing. */
  lemma RStripOfNonSpaceEnd(s: string)
    requires |s| == 0 || !IsSpace(s[|s| - 1])
    ensures RStrip(s) == s
  {
  }

  /** A line without separator characters is a key with an empty value. */
  lemma ParseLineWithoutSeparator(line: string)
    requires !Ignored(Strip(line))
    requires forall j :: 0 <= j < |Strip(line)| ==> Strip(line)[j] !in Separators
    ensures ParseLine(line) == Some(Property(Strip(line), ""))
  {
    var propDef := Strip(line);
    StripEndsInNonSpace(line);
    KeyEndWithoutSeparator(propDef);
    WholeLineKey(propDef);
    EmptyRestValue(propDef);
  }

  /** A line without separators that does not end in whitespace is its own key. */
  lemma WholeLineKey(propDef: string)
    requires |propDef| == 0 || !IsSpace(propDef[|propDef| - 1])
    requires forall j :: 0 <= j < |propDef| ==> propDef[j] !in Separators
    ensures PropertyKey(propDef, |propDef|) == propDef
  {
    assert propDef[..|propDef|] == propDef;
    RStripOfNonSpaceEnd(propDef);
  }

  /** Nothing after the key gives the empty value. */
  lemma EmptyRestValue(propDef: string)
    ensures PropertyValue(propDef[|propDef|..]) == ""
  {
    assert propDef[|propDef|..] == "";
  }

  /** Left-stripping a string that does not start with whitespace changes nothing. */
  lemma LStripOfNonSpaceStart(s: string)
    requires |s| == 0 || !IsSpace(s[0])
    ensures LStrip(s) == s
  {
  }

  /** A line that starts and ends in a non-space is its own stripped form. */
  lemma StripOfUnpadded(line: string)
    requires |line| > 0 && !IsSpace(line[0]) && !IsSpace(line[|line| - 1])
    ensures Strip(line) == line
  {
    RStripOfNonSpaceEnd(line);
    LStripOfNonSpaceStart(line);
  }

  /** The key of `k=v` ends at the `=` when `k` holds no separator. */
  lemma KeyEndOfDefinition(k: string, v: string)
    requires forall j :: 0 <= j < |k| ==> k[j] !in Separators
    ensures KeyEnd(k + "=" + v) == |k|
  {
    var line := k + "=" + v;
    assert line[|k|] == '=';
    assert forall j :: 0 <= j < |k| ==> line[j] == k[j];
  }

  /** The value after `=` is `v` itself when it is not padded by separators or whitespace. */
  lemma PropertyValueAfterEquals(v: string)
    requires |v| == 0 || (v[0] !in Separators && !IsSpace(v[|v| - 1]))
    ensures PropertyValue("=" + v) == v
  {
    var rest := "=" + v;
    assert rest[1..] == v;
    assert LStripSet(rest, Separators) == LStripSet(v, Separators) == v;
    RStripOfNonSpaceEnd(v);
  }

  /** A definition `k=v` with an unpadded key that is not a comment is its own stripped form
      and is not skipped. */
  lemma DefinitionUnpadded(k: string, v: string)
    requires |k| > 0 && k[0] != '!' && k[0] != '#' && !IsSpace(k[0])
    requires |v| == 0 || !IsSpace(v[|v| - 1])
    ensures Strip(k + "=" + v) == k + "=" + v && !Ignored(k + "=" + v)
  {
    var line := k + "=" + v;
    assert line[0] == k[0];
    assert line[|line| - 1] == if |v| == 0 then '=' else v[|v| - 1];
    StripOfUnpadded(line);
  }

  /** The key read from `k=v`, up to the `=`, is `k` when `k` holds no separator and does not
      end in whitespace. */
  lemma DefinitionKey(k: string, v: string)
    requires |k| == 0 || !IsSpace(k[|k| - 1])
    requires forall j :: 0 <= j < |k| ==> k[j] !in Separators
    ensures |k| <= |k + "=" + v|
    ensures forall j :: 0 <= j < |k| ==> (k + "=" + v)[j] !in Separators
    ensures PropertyKey(k + "=" + v, |k|) == k
  {
    var line := k + "=" + v;
    assert line[..|k|] == k;
    RStripOfNonSpaceEnd(k);
  }

  /** The value read from `k=v` after the key is `v` when it is not padded. */
  lemma DefinitionValue(k: string, v: string)
    requires |v| == 0 || (v[0] !in Separators && !IsSpace(v[|v| - 1]))
    ensures PropertyValue((k + "=" + v)[|k|..]) == v
  {
    assert (k + "=" + v)[|k|..] == "=" + v;
    PropertyValueAfterEquals(v);
  }

  /** A definition `k=v` is read as the key `k` with the value `v`, for a key that is not a
      comment, holds no separator and is not padded with whitespace, and a value that does
      not start with a separator nor end in whitespace. */
  lemma ParseLineOfDefinition(k: string, v: string)
    requires |k| > 0 && k[0] != '!' && k[0] != '#' && !IsSpace(k[0]) && !IsSpace(k[|k| - 1])
    requires forall j :: 0 <= j < |k| ==> k[j] !in Separators
    requires |v| == 0 || (v[0] !in Separators && !IsSpace(v[|v| - 1]))
    ensures ParseLine(k + "=" + v) == Some(Property(k, v))
  {
    DefinitionUnpadded(k, v);
    KeyEndOfDefinition(k, v);
    DefinitionKey(k, v);
    DefinitionValue(k, v);
  }

  /** The parsed lines of a properties file, one entry per line. */
  function ParsedLines(lines: seq<string>): (r: seq<Option<Property>>)
    ensures |r| == |lines| && forall i :: 0 <= i < |lines| ==> r[i] == ParseLine(lines[i])
  {
    seq(|lines|, i requires 0 <= i < |lines| => ParseLine(lines[i]))
  }

  /** The dictionary built from parsed entries in order: later definitions overwrite earlier ones. */
  function Collect(entries: seq<Option<Property>>): map<string, string> {
    if |entries| == 0 then map[]
    else
      var earlier := Collect(entries[..|entries| - 1]);
      match entries[|entries| - 1]
      case None => earlier
      case Some(p) => earlier[p.key := p.value]
  }

  /** The dictionary read_properties returns for the lines of a file. */
  function PropertiesOf(lines: seq<string>): map<string, string> {
    Collect(ParsedLines(lines))
  }

  /** One more parsed line updates the dictionary with its property, if it has one. */
  lemma CollectStep(entries: seq<Option<Property>>, i: nat)
    requires i < |entries|
    ensures Collect(entries[..i + 1]) == match entries[i]
                                         case None => Collect(entries[..i])
                                         case Some(p) => Collect(entries[..i])[p.key := p.value]
  {
    assert entries[..i + 1][..i] == entries[..i];
  }

  /** read_properties: reads the lines of a properties file into a dictionary. */
  method ReadProperties(lines: seq<string>) returns (props: map<string, string>)
    ensures props == PropertiesOf(lines)
  {
    ghost var entries := ParsedLines(lines);
    props := map[];
    var i := 0;
    while i < |lines|
      invariant 0 <= i <= |lines|
      invariant props == Collect(entries[..i])
    {
      var e := ParseLine(lines[i]);
      assert e == entries[i];
      CollectStep(entries, i);
      match e {
        case None =>
        case Some(p) =>
          props := props[p.key := p.value];
      }
      i := i + 1;
    }
    assert entries[..i] == entries;
  }

  /** The entry defines the key `k`. */
  predicate EntryDefines(e: Option<Property>, k: string) {
    e.Some? && e.value.key == k
  }

  /** The line defines the key `k`. */
  predicate Defines(line: string, k: string) {
    EntryDefines(ParseLine(line), k)
  }

  lemma {:induction false} CollectKeys(entries: seq<Option<Property>>, k: string)
    ensures k in Collect(entries) <==> exists i :: 0 <= i < |entries| && EntryDefines(entries[i], k)
  {
    if |entries| > 0 {
      var init := entries[..|entries| - 1];
      CollectKeys(init, k);
      if exists i :: 0 <= i < |init| && EntryDefines(init[i], k) {
        var i :| 0 <= i < |init| && EntryDefines(init[i], k);
        assert entries[i] == init[i];
      }
      if exists i :: 0 <= i < |entries| && EntryDefines(entries[i], k) {
        var i :| 0 <= i < |entries| && EntryDefines(entries[i], k);
        if i < |init| { assert init[i] == entries[i]; }
      }
    }
  }

  lemma {:induction false} CollectLastWins(entries: seq<Option<Property>>, i: nat)
    requires i < |entries| && entries[i].Some?
    requires forall j :: i < j < |entries| ==> !EntryDefines(entries[j], entries[i].value.key)
    ensures entries[i].value.key in Collect(entries)
    ensures Collect(entries)[entries[i].value.key] == entries[i].value.value
  {
    var init := entries[..|entries| - 1];
    if i < |entries| - 1 {
      assert init[i] == entries[i];
      forall j | i < j < |init|
        ensures !EntryDefines(init[j], init[i].value.key)
      {
        assert init[j] == entries[j];
      }
      CollectLastWins(init, i);
    }
  }

  /** A key is in the dictionary exactly when some line defines it. */
  lemma PropertiesKeys(lines: seq<string>, k: string)
    ensures k in PropertiesOf(lines) <==> exists i :: 0 <= i < |lines| && Defines(lines[i], k)
  {
    var entries := ParsedLines(lines);
    CollectKeys(entries, k);
    assert forall i :: 0 <= i < |lines| ==> (Defines(lines[i], k) <==> EntryDefines(entries[i], k));
  }

  /** The value of a key is the one given by the last line that defines it. */
  lemma PropertiesLastWins(lines: seq<string>, i: nat)
    requires i < |lines| && ParseLine(lines[i]).Some?
    requires forall j :: i < j < |lines| ==> !Defines(lines[j], ParseLine(lines[i]).value.key)
    ensures ParseLine(lines[i]).value.key in PropertiesOf(lines)
    ensures PropertiesOf(lines)[ParseLine(lines[i]).value.key] == ParseLine(lines[i]).value.value
  {
    CollectLastWins(ParsedLines(lines), i);
  }

  // ---------------------------------------------------------------------------
  // include_path

  const IgnoreFiles: seq<string> := [".gitignore", ".cvsignore", ".DS_Store"]
  const IgnoreDirs: seq<string> := [".git", ".svn", "_svn", "CVS"]

  /** POSIX basename: the text after the last `/`. */
  function Basename(path: string): (r: string)
    ensures |r| <= |path| && r == path[|path| - |r|..]
    ensures forall j :: 0 <= j < |r| ==> r[j] != '/'
    ensures |r| < |path| ==> path[|path| - |r| - 1] == '/'
  {
    match LastIndexOfChar(path, '/')
    case None => path
    case Some(i) => path[i + 1..]
  }

  /** The resource-scan filter: a directory is skipped exactly when its name is an ignored
      directory name, a file exactly when its name is an ignored file name. */
  function IncludePath(path: string, isFile: bool): (r: bool)
    ensures !r <==> Basename(path) in (if isFile then IgnoreFiles else IgnoreDirs)
  {
    if !isFile && Basename(path) in IgnoreDirs then false
    else if isFile && Basename(path) in IgnoreFiles then false
    else true
  }

  /** The basename of `dir/name` is `name`. */
  lemma BasenameOfJoin(dir: string, name: string)
    requires forall j :: 0 <= j < |name| ==> name[j] != '/'
    ensures Basename(dir + "/" + name) == name
  {
    var p := dir + "/" + name;
    assert p[|dir|] == '/';
    assert forall j :: |dir| < j < |p| ==> p[j] == name[j - |dir| - 1];
    assert p[|dir| + 1..] == name;
  }

  /** Whether `dir/name` is copied depends only on `name` and on whether it is a file:
      an ignored directory name excludes only directories, an ignored file name only files. */
  lemma IncludePathByName(dir: string, name: string, isFile: bool)
    requires forall j :: 0 <= j < |name| ==> name[j] != '/'
    ensures IncludePath(dir + "/" + name, isFile) <==>
              (if isFile then name !in IgnoreFiles else name !in IgnoreDirs)
  {
    BasenameOfJoin(dir, name);
  }

  // ---------------------------------------------------------------------------
  // strip_slash and make_relative

  predicate IsSlash(c: char) {
    c == '/' || c == '\\'
  }

  /** Removes one leading `/` or `\`. */
  function StripSlash(s: string): (r: string)
    ensures |s| > 0 && IsSlash(s[0]) ==> r == s[1..]
    ensures !(|s| > 0 && IsSlash(s[0])) ==> r == s
  {
    if |s| > 0 && IsSlash(s[0]) then s[1..] else s
  }

  /** POSIX `os.path.join(a, b)`: an absolute `b` replaces `a`; otherwise `b` follows `a`,
      separated by one `/` unless `a` is empty or already ends in one. */
  function PathJoin(a: string, b: string): (r: string)
    ensures StartsWith(b, "/") ==> r == b
    ensures !StartsWith(b, "/") ==> StartsWith(r, a) && EndsWith(r, b)
    ensures !StartsWith(b, "/") ==> |r| == |a| + |b| + (if a == "" || EndsWith(a, "/") then 0 else 1)
    ensures !StartsWith(b, "/") && !(a == "" || EndsWith(a, "/")) ==> r[|a|] == '/'
  {
    if StartsWith(b, "/") then b
    else if a == "" || EndsWith(a, "/") then a + b
    else a + "/" + b
  }

  /** The part of `path` after its first `|relativeTo|` characters (without checking that
      they are `relativeTo`), with one leading slash stripped: a suffix of `path` at most
      one character shorter than that part, and empty when `path` is the shorter. */
  function RelativePart(path: string, relativeTo: string): (r: string)
    ensures EndsWith(path, r)
    ensures |relativeTo| <= |path| ==> |r| + 1 >= |path| - |relativeTo|
    ensures |relativeTo| > |path| ==> r == ""
  {
    StripSlash(if |relativeTo| <= |path| then path[|relativeTo|..] else "")
  }

  /** make_relative: the relative part of `path`, joined under `prefix` when one is given,
      so that it always ends in the relative part. */
  function MakeRelative(path: string, relativeTo: string, prefix: Option<string>): (r: string)
    ensures prefix.None? ==> r == RelativePart(path, relativeTo)
    ensures prefix.Some? ==> r == PathJoin(prefix.value, RelativePart(path, relativeTo))
    ensures EndsWith(r, RelativePart(path, relativeTo))
  {
    match prefix
    case Some(p) => PathJoin(p, RelativePart(path, relativeTo))
    case None => RelativePart(path, relativeTo)
  }

  /** make_relative undoes os.path.join: a path joined under `dir` is made relative to
      `dir` again, and then moved under `prefix` when one is given. */
  lemma MakeRelativeOfJoin(dir: string, rel: string, prefix: Option<string>)
    requires !(|rel| > 0 && IsSlash(rel[0]))
    ensures MakeRelative(PathJoin(dir, rel), dir, None) == rel
    ensures prefix.Some? ==> MakeRelative(PathJoin(dir, rel), dir, prefix) == PathJoin(prefix.value, rel)
  {
    var joined := PathJoin(dir, rel);
    assert !StartsWith(rel, "/");
    if dir == "" || EndsWith(dir, "/") {
      assert joined[|dir|..] == rel;
    } else {
      assert joined[|dir|..] == "/" + rel;
      assert ("/" + rel)[1..] == rel;
    }
  }

  // ---------------------------------------------------------------------------
  // generate_android_manifest: permissions and activities

  const BasePermissions: seq<string> :=
    ["INTERNET", "ACCESS_WIFI_STATE", "ACCESS_NETWORK_STATE", "WRITE_EXTERNAL_STORAGE"]

  /** The base permissions are four distinct names. */
  lemma BasePermissionsDistinct()
    ensures NoDuplicates(BasePermissions)
  {
    var b := BasePermissions;
    assert b[0][0] != b[1][0] && b[0][0] != b[2][0] && b[0][0] != b[3][0];
    assert b[1][7] != b[2][7] && b[1][0] != b[3][0] && b[2][0] != b[3][0];
  }

  const GeoPermission: seq<string> :=
    ["ACCESS_COARSE_LOCATION", "ACCESS_FINE_LOCATION", "ACCESS_MOCK_LOCATION"]
  const ContactsPermission: seq<string> := ["READ_CONTACTS"]
  const VibratePermission: seq<string> := ["VIBRATE"]
  const CameraPermission: seq<string> := ["CAMERA"]

  /** The permissions a used module method requires: a non-empty list of names, none of
      them twice and none of them a base permission. */
  function PermissionMapping(mn: string): (r: Option<seq<string>>)
    ensures r.Some? ==> |r.value| > 0 && NoDuplicates(r.value)
    ensures r.Some? ==> forall p :: p in r.value ==> p !in BasePermissions
  {
    if mn in {"Geolocation.watchPosition", "Geolocation.getCurrentPosition",
              "Geolocation.watchHeading", "Geolocation.getCurrentHeading"} then Some(GeoPermission)
    else if mn == "Media.vibrate" then Some(VibratePermission)
    else if mn in {"Media.createVideoPlayer", "Media.showCamera"} then Some(CameraPermission)
    else if mn in {"Contacts.createContact", "Contacts.saveContact", "Contacts.removeContact",
                   "Contacts.addContact", "Contacts.getAllContacts", "Contacts.showContactPicker"}
    then Some(ContactsPermission)
    else None
  }

  const VideoActivity: string :=
    "<activity\n\t\tandroid:name=\"ti.modules.titanium.media.TiVideoActivity\"\n"
    + "\t\tandroid:configChanges=\"keyboardHidden|orientation\"\n"
    + "\t\tandroid:launchMode=\"singleTask\"\n    \t/>"

  const MapActivity: string :=
    "<activity\n    \t\tandroid:name=\"ti.modules.titanium.map.TiMapActivity\"\n"
    + "    \t\tandroid:configChanges=\"keyboardHidden|orientation\"\n"
    + "    \t\tandroid:launchMode=\"singleTask\"\n    \t/>\n"
    + "\t<uses-library android:name=\"com.google.android.maps\" />"

  const FacebookActivity: string :=
    "<activity \n\t\tandroid:name=\"ti.modules.titanium.facebook.FBActivity\"\n"
    + "\t\tandroid:theme=\"@android:style/Theme.Translucent.NoTitleBar\"\n    />"

  /** The activity declaration a used module method requires. Only `Map.createView`
      requires the map activity. */
  function ActivityMapping(mn: string): (r: Option<string>)
    ensures r.Some? ==> r.value == VideoActivity || r.value == MapActivity || r.value == FacebookActivity
    ensures r == Some(MapActivity) <==> mn == "Map.createView"
  {
    assert MapActivity != VideoActivity && MapActivity != FacebookActivity;
    if mn == "Media.createVideoPlayer" then Some(VideoActivity)
    else if mn == "Map.createView" then Some(MapActivity)
    else if mn in {"Facebook.setup", "Facebook.login", "Facebook.createLoginButton"} then Some(FacebookActivity)
    else None
  }

  /** Module methods that need the Google APIs on the device. */
  predicate NeedsGoogleApis(mn: string) {
    mn == "Map.createView"
  }

  predicate NoDuplicates(s: seq<string>) {
    forall i, j :: 0 <= i < j < |s| ==> s[i] != s[j]
  }

  /** `acc` extended by each element of `xs` that is not yet present, in the order of `xs`. */
  function AddAbsent(acc: seq<string>, xs: seq<string>): (r: seq<string>)
    ensures |acc| <= |r| && r[..|acc|] == acc
    ensures forall x :: x in r <==> x in acc || x in xs
    ensures forall i :: |acc| <= i < |r| ==> r[i] in xs && r[i] !in r[..i]
    ensures NoDuplicates(acc) ==> NoDuplicates(r)
    decreases |xs|
  {
    if |xs| == 0 then acc
    else
      var prev := AddAbsent(acc, xs[..|xs| - 1]);
      var x := xs[|xs| - 1];
      AddAbsentStepPrefix(acc, prev, x);
      AddAbsentStepMembers(acc, xs, prev);
      AddAbsentStepPositions(acc, xs, prev);
      AddAbsentStepDistinct(prev, x);
      if x in prev then prev else prev + [x]
  }

  /** One step of AddAbsent keeps `acc` as the prefix. */
  lemma AddAbsentStepPrefix(acc: seq<string>, prev: seq<string>, x: string)
    requires |acc| <= |prev| && prev[..|acc|] == acc
    ensures var r := if x in prev then prev else prev + [x];
            |acc| <= |r| && r[..|acc|] == acc
  {
    assert (prev + [x])[..|prev|] == prev;
  }

  /** One step of AddAbsent adds the last element of `xs` to the members. */
  lemma AddAbsentStepMembers(acc: seq<string>, xs: seq<string>, prev: seq<string>)
    requires |xs| > 0
    requires forall y :: y in prev <==> y in acc || y in xs[..|xs| - 1]
    ensures var r := if xs[|xs| - 1] in prev then prev else prev + [xs[|xs| - 1]];
            forall y :: y in r <==> y in acc || y in xs
  {
    assert xs == xs[..|xs| - 1] + [xs[|xs| - 1]];
  }

  /** After one step of AddAbsent, every appended element comes from `xs` and is absent
      before its position. */
  lemma AddAbsentStepPositions(acc: seq<string>, xs: seq<string>, prev: seq<string>)
    requires |xs| > 0
    requires forall i :: |acc| <= i < |prev| ==> prev[i] in xs[..|xs| - 1] && prev[i] !in prev[..i]
    ensures var r := if xs[|xs| - 1] in prev then prev else prev + [xs[|xs| - 1]];
            forall i :: |acc| <= i < |r| ==> r[i] in xs && r[i] !in r[..i]
  {
    var init, x := xs[..|xs| - 1], xs[|xs| - 1];
    assert xs == init + [x];
    assert forall i :: |acc| <= i < |prev| ==> prev[i] in xs by {
      assert forall y :: y in init ==> y in xs;
    }
    if x !in prev {
      var r := prev + [x];
      assert forall i :: 0 <= i < |prev| ==> r[..i] == prev[..i];
      assert r[..|prev|] == prev;
    }
  }

  /** One step of AddAbsent keeps a duplicate-free list duplicate-free. */
  lemma AddAbsentStepDistinct(prev: seq<string>, x: string)
    ensures NoDuplicates(prev) ==> NoDuplicates(if x in prev then prev else prev + [x])
  {
  }

  /** Position of the first occurrence of `x` in `xs`. */
  function FirstIndex(xs: seq<string>, x: string): (r: nat)
    requires x in xs
    ensures r < |xs| && xs[r] == x && forall j :: 0 <= j < r ==> xs[j] != x
  {
    if xs[0] == x then 0 else 1 + FirstIndex(xs[1..], x)
  }

  /** The elements of `r` after position `|acc|` are ordered by their first occurrence in `xs`. */
  ghost predicate FirstSeenOrdered(acc: seq<string>, xs: seq<string>, r: seq<string>) {
    forall i, j :: |acc| <= i < j < |r| ==>
      r[i] in xs && r[j] in xs && FirstIndex(xs, r[i]) < FirstIndex(xs, r[j])
  }

  /** The elements AddAbsent appends appear in the order of their first occurrence in `xs`. */
  lemma {:induction false} AddAbsentFirstSeenOrder(acc: seq<string>, xs: seq<string>)
    ensures FirstSeenOrdered(acc, xs, AddAbsent(acc, xs))
    decreases |xs|
  {
    var r := AddAbsent(acc, xs);
    if |xs| > 0 {
      var init := xs[..|xs| - 1];
      AddAbsentFirstSeenOrder(acc, init);
      forall i, j | |acc| <= i < j < |r|
        ensures r[i] in xs && r[j] in xs && FirstIndex(xs, r[i]) < FirstIndex(xs, r[j])
      {
        AddAbsentOrderStep(acc, xs, i, j);
      }
    }
  }

  lemma AddAbsentOrderStep(acc: seq<string>, xs: seq<string>, i: nat, j: nat)
    requires |xs| > 0
    requires FirstSeenOrdered(acc, xs[..|xs| - 1], AddAbsent(acc, xs[..|xs| - 1]))
    requires |acc| <= i < j < |AddAbsent(acc, xs)|
    ensures AddAbsent(acc, xs)[i] in xs && AddAbsent(acc, xs)[j] in xs
    ensures FirstIndex(xs, AddAbsent(acc, xs)[i]) < FirstIndex(xs, AddAbsent(acc, xs)[j])
  {
    var r := AddAbsent(acc, xs);
    var init := xs[..|xs| - 1];
    var prev := AddAbsent(acc, init);
    var x := xs[|xs| - 1];
    assert r == if x in prev then prev else prev + [x];
    assert r[i] == prev[i] && prev[i] in init;
    FirstIndexOfPrefix(xs, init, prev[i]);
    if j < |prev| {
      assert r[j] == prev[j];
      FirstIndexOfPrefix(xs, init, prev[j]);
      assert FirstIndex(init, prev[i]) < FirstIndex(init, prev[j]);
    } else {
      assert r[j] == x && x !in init;
      LastIsFirstIndex(xs, x);
    }
  }

  lemma LastIsFirstIndex(xs: seq<string>, x: string)
    requires |xs| > 0 && xs[|xs| - 1] == x && x !in xs[..|xs| - 1]
    ensures x in xs && FirstIndex(xs, x) == |xs| - 1
  {
    assert forall j :: 0 <= j < |xs| - 1 ==> xs[j] == xs[..|xs| - 1][j];
  }

  lemma FirstIndexOfPrefix(xs: seq<string>, init: seq<string>, x: string)
    requires |init| <= |xs| && init == xs[..|init|] && x in init
    ensures x in xs && FirstIndex(xs, x) == FirstIndex(init, x) < |init|
  {
    var k := FirstIndex(init, x);
    assert xs[k] == x;
    assert forall j :: 0 <= j < k ==> xs[j] == init[j];
  }

  /** All permissions required by the used module methods, mapping by mapping. */
  function MappedPermissions(moduleMethods: seq<string>): seq<string> {
    if |moduleMethods| == 0 then []
    else MappedPermissions(moduleMethods[..|moduleMethods| - 1])
         + PermissionMapping(moduleMethods[|moduleMethods| - 1]).GetOr([])
  }

  /** The activity one module method contributes as the code runs: the Google-API check
      never takes effect, so a mapped activity is always contributed. */
  function ActivityForAsWritten(mn: string): seq<string> {
    match ActivityMapping(mn)
    case Some(a) => [a]
    case None => []
  }

  /** The activity one module method contributes when the Google-API check takes effect:
      nothing for a method that needs the Google APIs on a device without them. */
  function ActivityFor(mn: string, googleApisSupported: bool): seq<string> {
    match ActivityMapping(mn)
    case Some(a) => if NeedsGoogleApis(mn) && !googleApisSupported then [] else [a]
    case None => []
  }

  /** All activity declarations required by the used module methods, as the code runs:
      exactly the activities the methods map to. */
  function MappedActivitiesAsWritten(moduleMethods: seq<string>): (r: seq<string>)
    ensures forall a :: a in r <==>
              exists i :: 0 <= i < |moduleMethods| && ActivityMapping(moduleMethods[i]) == Some(a)
  {
    if |moduleMethods| == 0 then []
    else
      var init := moduleMethods[..|moduleMethods| - 1];
      var mn := moduleMethods[|moduleMethods| - 1];
      var r := MappedActivitiesAsWritten(init) + ActivityForAsWritten(mn);
      assert forall i :: 0 <= i < |init| ==> init[i] == moduleMethods[i];
      r
  }

  /** All activity declarations required by the used module methods when the Google-API
      check takes effect: the activities the methods map to, except those of methods that
      need Google APIs the device does not have. */
  function MappedActivities(moduleMethods: seq<string>, googleApisSupported: bool): (r: seq<string>)
    ensures forall a :: a in r <==>
              exists i :: 0 <= i < |moduleMethods| && ActivityMapping(moduleMethods[i]) == Some(a)
                          && !(NeedsGoogleApis(moduleMethods[i]) && !googleApisSupported)
  {
    if |moduleMethods| == 0 then []
    else
      var init := moduleMethods[..|moduleMethods| - 1];
      var mn := moduleMethods[|moduleMethods| - 1];
      var r := MappedActivities(init, googleApisSupported) + ActivityFor(mn, googleApisSupported);
      assert forall i :: 0 <= i < |init| ==> init[i] == moduleMethods[i];
      r
  }

  /** As written, the activities do not depend on the device: they are those of a device
      with Google APIs. */
  lemma {:induction false} AsWrittenIgnoresDevice(moduleMethods: seq<string>)
    ensures MappedActivitiesAsWritten(moduleMethods) == MappedActivities(moduleMethods, true)
  {
    if |moduleMethods| > 0 {
      AsWrittenIgnoresDevice(moduleMethods[..|moduleMethods| - 1]);
    }
  }

  /** As written, a build for a device without Google APIs still declares the map activity. */
  lemma GoogleApiSkipIneffective()
    ensures MapActivity in AddAbsent([], MappedActivitiesAsWritten(["Map.createView"]))
    ensures MapActivity !in AddAbsent([], MappedActivities(["Map.createView"], false))
  {
    assert ["Map.createView"][..0] == [];
  }

  /** Only module methods that need the Google APIs map to the map activity. */
  lemma {:induction false} NoMapActivityWithoutGoogleApis(moduleMethods: seq<string>)
    ensures MapActivity !in MappedActivities(moduleMethods, false)
  {
    if |moduleMethods| > 0 {
      NoMapActivityWithoutGoogleApis(moduleMethods[..|moduleMethods| - 1]);
      assert MapActivity != VideoActivity;
      assert MapActivity != FacebookActivity;
    }
  }

  /** AddAbsent over a concatenation is AddAbsent twice. */
  lemma {:induction false} AddAbsentAppend(acc: seq<string>, xs: seq<string>, ys: seq<string>)
    ensures AddAbsent(acc, xs + ys) == AddAbsent(AddAbsent(acc, xs), ys)
    decreases |ys|
  {
    if |ys| == 0 {
      assert xs + ys == xs;
    } else {
      assert (xs + ys)[..|xs + ys| - 1] == xs + ys[..|ys| - 1];
      AddAbsentAppend(acc, xs, ys[..|ys| - 1]);
    }
  }

  /** Appends each element of `xs` that `list` does not yet hold (the inner loop over a
      module method's permissions). */
  method AppendAbsent(list: seq<string>, xs: seq<string>) returns (r: seq<string>)
    ensures r == AddAbsent(list, xs)
  {
    r := list;
    var j := 0;
    while j < |xs|
      invariant 0 <= j <= |xs|
      invariant r == AddAbsent(list, xs[..j])
    {
      assert xs[..j + 1][..j] == xs[..j];
      if xs[j] !in r {
        r := r + [xs[j]];
      }
      j := j + 1;
    }
    assert xs[..j] == xs;
  }

  lemma MappedPermissionsStep(moduleMethods: seq<string>, i: nat)
    requires i < |moduleMethods|
    ensures MappedPermissions(moduleMethods[..i + 1])
         == MappedPermissions(moduleMethods[..i]) + PermissionMapping(moduleMethods[i]).GetOr([])
  {
    assert moduleMethods[..i + 1][..i] == moduleMethods[..i];
  }

  lemma MappedActivitiesAsWrittenStep(moduleMethods: seq<string>, i: nat)
    requires i < |moduleMethods|
    ensures MappedActivitiesAsWritten(moduleMethods[..i + 1])
         == MappedActivitiesAsWritten(moduleMethods[..i]) + ActivityForAsWritten(moduleMethods[i])
  {
    assert moduleMethods[..i + 1][..i] == moduleMethods[..i];
  }

  lemma MappedActivitiesStep(moduleMethods: seq<string>, i: nat, googleApisSupported: bool)
    requires i < |moduleMethods|
    ensures MappedActivities(moduleMethods[..i + 1], googleApisSupported)
         == MappedActivities(moduleMethods[..i], googleApisSupported)
            + ActivityFor(moduleMethods[i], googleApisSupported)
  {
    assert moduleMethods[..i + 1][..i] == moduleMethods[..i];
  }

  /** The permissions of one module method appended to the list, skipping those present. */
  method AddPermissionsOf(permissions: seq<string>, mn: string) returns (r: seq<string>)
    ensures r == AddAbsent(permissions, PermissionMapping(mn).GetOr([]))
  {
    r := permissions;
    match PermissionMapping(mn) {
      case Some(perms) =>
        r := AppendAbsent(permissions, perms);
      case None =>
    }
  }

  /** The activity of one module method appended to the list unless present. The check
      for Google APIs raises before it can skip anything (see GoogleApiSkipIneffective) and
      the bare `except` passes, so the activity is appended whatever the device. */
  method AddActivityOf(activities: seq<string>, mn: string) returns (r: seq<string>)
    ensures r == AddAbsent(activities, ActivityForAsWritten(mn))
  {
    r := activities;
    match ActivityMapping(mn) {
      case Some(a) =>
        assert [a][..0] == [];
        if a !in activities {
          r := activities + [a];
        }
      case None =>
    }
  }

  /** The activity of one module method appended to the list unless present, with the
      Google-API check in effect: skipped when the method needs Google APIs the device
      does not have. */
  method AddActivityOfChecked(activities: seq<string>, mn: string, googleApisSupported: bool)
    returns (r: seq<string>)
    ensures r == AddAbsent(activities, ActivityFor(mn, googleApisSupported))
  {
    r := activities;
    match ActivityMapping(mn) {
      case Some(a) =>
        if !(NeedsGoogleApis(mn) && !googleApisSupported) {
          assert [a][..0] == [];
          if a !in activities {
            r := activities + [a];
          }
        }
      case None =>
    }
  }

  /** The permission and activity lists of the manifest, as the code runs: the four base
      permissions, then each mapped permission not yet listed; each mapped activity not yet
      listed. */
  method CollectManifestEntries(moduleMethods: seq<string>)
    returns (permissions: seq<string>, activities: seq<string>)
    ensures permissions == AddAbsent(BasePermissions, MappedPermissions(moduleMethods))
    ensures activities == AddAbsent([], MappedActivitiesAsWritten(moduleMethods))
  {
    permissions := BasePermissions;
    activities := [];
    var i := 0;
    while i < |moduleMethods|
      invariant 0 <= i <= |moduleMethods|
      invariant permissions == AddAbsent(BasePermissions, MappedPermissions(moduleMethods[..i]))
      invariant activities == AddAbsent([], MappedActivitiesAsWritten(moduleMethods[..i]))
    {
      var mn := moduleMethods[i];
      MappedPermissionsStep(moduleMethods, i);
      AddAbsentAppend(BasePermissions, MappedPermissions(moduleMethods[..i]), PermissionMapping(mn).GetOr([]));
      permissions := AddPermissionsOf(permissions, mn);
      MappedActivitiesAsWrittenStep(moduleMethods, i);
      AddAbsentAppend([], MappedActivitiesAsWritten(moduleMethods[..i]), ActivityForAsWritten(mn));
      activities := AddActivityOf(activities, mn);
      i := i + 1;
    }
    assert moduleMethods[..i] == moduleMethods;
  }

  /** The activity list with the Google-API check in effect. */
  method CollectActivitiesChecked(moduleMethods: seq<string>, googleApisSupported: bool)
    returns (activities: seq<string>)
    ensures activities == AddAbsent([], MappedActivities(moduleMethods, googleApisSupported))
  {
    activities := [];
    var i := 0;
    while i < |moduleMethods|
      invariant 0 <= i <= |moduleMethods|
      invariant activities == AddAbsent([], MappedActivities(moduleMethods[..i], googleApisSupported))
    {
      var mn := moduleMethods[i];
      MappedActivitiesStep(moduleMethods, i, googleApisSupported);
      AddAbsentAppend([], MappedActivities(moduleMethods[..i], googleApisSupported), ActivityFor(mn, googleApisSupported));
      activities := AddActivityOfChecked(activities, mn, googleApisSupported);
      i := i + 1;
    }
    assert moduleMethods[..i] == moduleMethods;
  }

  /** The manifest lists as the code runs: the permissions start with the base permissions,
      hold no name twice and hold exactly the base and mapped permissions; the activities
      hold no declaration twice, and the map activity is declared exactly when
      `Map.createView` is used, whatever the device. */
  lemma ManifestEntriesProperties(moduleMethods: seq<string>)
    ensures var permissions := AddAbsent(BasePermissions, MappedPermissions(moduleMethods));
            |permissions| >= 4 && permissions[..4] == BasePermissions && NoDuplicates(permissions)
            && forall p :: p in permissions <==> p in BasePermissions || p in MappedPermissions(moduleMethods)
    ensures var activities := AddAbsent([], MappedActivitiesAsWritten(moduleMethods));
            NoDuplicates(activities) && (MapActivity in activities <==> "Map.createView" in moduleMethods)
  {
    BasePermissionsDistinct();
    var activities := AddAbsent([], MappedActivitiesAsWritten(moduleMethods));
    if "Map.createView" in moduleMethods {
      var i :| 0 <= i < |moduleMethods| && moduleMethods[i] == "Map.createView";
      assert ActivityMapping(moduleMethods[i]) == Some(MapActivity);
    }
  }

  // ---------------------------------------------------------------------------
  // generate_android_manifest: the permissions XML

  const PermissionOpen: string := "<uses-permission android:name=\"android.permission."
  const PermissionClose: string := "\"/>\n\t"

  function PermissionElement(p: string): string {
    PermissionOpen + p + PermissionClose
  }

  /** One `<uses-permission .../>` element per permission, in list order. */
  function PermissionsXml(permissions: seq<string>): string {
    if |permissions| == 0 then ""
    else PermissionElement(permissions[0]) + PermissionsXml(permissions[1..])
  }

  lemma {:induction false} PermissionsXmlSnoc(permissions: seq<string>, p: string)
    ensures PermissionsXml(permissions + [p]) == PermissionsXml(permissions) + PermissionElement(p)
  {
    if |permissions| == 0 {
      assert PermissionsXml([p]) == PermissionElement(p) + PermissionsXml([]);
    } else {
      assert (permissions + [p])[1..] == permissions[1..] + [p];
      PermissionsXmlSnoc(permissions[1..], p);
    }
  }

  /** Builds the permissions XML by appending one element per permission. */
  method BuildPermissionsXml(permissions: seq<string>) returns (xml: string)
    ensures xml == PermissionsXml(permissions)
  {
    xml := "";
    var i := 0;
    while i < |permissions|
      invariant 0 <= i <= |permissions|
      invariant xml == PermissionsXml(permissions[..i])
    {
      PermissionsXmlSnoc(permissions[..i], permissions[i]);
      assert permissions[..i + 1] == permissions[..i] + [permissions[i]];
      xml := xml + PermissionElement(permissions[i]);
      i := i + 1;
    }
    assert permissions[..i] == permissions;
  }

  /** Reads the permission names back from a permissions XML string. */
  function ParsePermissionsXml(xml: string): Option<seq<string>>
    decreases |xml|
  {
    if xml == "" then Some([])
    else if !StartsWith(xml, PermissionOpen) then None
    else
      var rest := xml[|PermissionOpen|..];
      match IndexOf(rest, "\"")
      case None => None
      case Some(i) =>
        if !StartsWith(rest[i..], PermissionClose) then None
        else
          match ParsePermissionsXml(rest[i + |PermissionClose|..])
          case None => None
          case Some(tail) => Some([rest[..i]] + tail)
  }

  lemma QuoteFirstAt(p: string, tail: string)
    requires forall j :: 0 <= j < |p| ==> p[j] != '"'
    ensures IndexOf(p + PermissionClose + tail, "\"") == Some(|p|)
  {
    var s := p + PermissionClose + tail;
    assert s[|p|..|p| + 1] == "\"";
    assert OccursAt(s, "\"", |p|);
    forall j | 0 <= j < |p|
      ensures !OccursAt(s, "\"", j)
    {
      assert s[j..j + 1] == [p[j]];
    }
  }

  /** Reading an element in front of more XML yields its permission, then the rest. */
  lemma ParseElementStep(p: string, tail: string)
    requires forall j :: 0 <= j < |p| ==> p[j] != '"'
    ensures ParsePermissionsXml(PermissionElement(p) + tail)
            == match ParsePermissionsXml(tail) case None => None case Some(t) => Some([p] + t)
  {
    var xml := PermissionElement(p) + tail;
    assert xml == PermissionOpen + (p + PermissionClose + tail);
    assert StartsWith(xml, PermissionOpen);
    var rest := xml[|PermissionOpen|..];
    assert rest == p + PermissionClose + tail;
    QuoteFirstAt(p, tail);
    assert rest[|p|..] == PermissionClose + tail;
    assert rest[|p| + |PermissionClose|..] == tail;
    assert rest[..|p|] == p;
  }

  /** The permissions XML holds exactly the permissions, one element each, in list order. */
  lemma {:induction false} PermissionsXmlRoundTrip(permissions: seq<string>)
    requires forall k, j :: 0 <= k < |permissions| && 0 <= j < |permissions[k]| ==> permissions[k][j] != '"'
    ensures ParsePermissionsXml(PermissionsXml(permissions)) == Some(permissions)
  {
    if |permissions| > 0 {
      var p := permissions[0];
      assert PermissionsXml(permissions) == PermissionElement(p) + PermissionsXml(permissions[1..]);
      ParseElementStep(p, PermissionsXml(permissions[1..]));
      PermissionsXmlRoundTrip(permissions[1..]);
      assert [p] + permissions[1..] == permissions;
    }
  }

  // ---------------------------------------------------------------------------
  // generate_android_manifest: placeholder substitution

  const ActivitiesPlaceholder: string := "<!-- TI_ACTIVITIES -->"
  const PermissionsPlaceholder: string := "<!-- TI_PERMISSIONS -->"
  const AndroidSdkVersion: string := "4"
  const SdkDeclaration: string := "<uses-sdk android:minSdkVersion=\"4\" />"

  function SdkDeclarationFor(version: string): string {
    "<uses-sdk android:minSdkVersion=\"" + version + "\" />"
  }

  /** The manifest text: the activities joined by blank lines replace the activities
      placeholder, the permissions XML replaces the permissions placeholder, and the
      SDK declaration is rewritten to the same text, so that last step changes nothing. */
  function SubstituteManifest(template: string, activities: seq<string>, permissionsXml: string): (r: string)
    ensures r == ReplaceAll(ReplaceAll(template, ActivitiesPlaceholder, Join(activities, ActivitySeparator)),
                            PermissionsPlaceholder, permissionsXml)
  {
    var withActivities := ReplaceAll(template, ActivitiesPlaceholder, Join(activities, ActivitySeparator));
    var withPermissions := ReplaceAll(withActivities, PermissionsPlaceholder, permissionsXml);
    assert SdkDeclarationFor(AndroidSdkVersion) == SdkDeclaration;
    ReplaceAllSelf(withPermissions, SdkDeclaration);
    ReplaceAll(withPermissions, SdkDeclaration, SdkDeclarationFor(AndroidSdkVersion))
  }

  /** The separator between activities in the manifest. */
  const ActivitySeparator: string := "\n\n\t\t"

  /** A template holding the activities placeholder and, after it, the permissions
      placeholder, each once, receives the joined activities and the permissions XML in
      their places and is otherwise unchanged. The activities must not bring in a
      permissions placeholder of their own. */
  lemma ManifestPlacesEntries(a: string, b: string, c: string, activities: seq<string>, permissionsXml: string)
    requires !Contains(a, ActivitiesPlaceholder) && !Contains(b + PermissionsPlaceholder + c, ActivitiesPlaceholder)
    requires !Contains(a + Join(activities, ActivitySeparator) + b, PermissionsPlaceholder)
    requires !Contains(c, PermissionsPlaceholder)
    ensures SubstituteManifest(a + ActivitiesPlaceholder + b + PermissionsPlaceholder + c, activities, permissionsXml)
            == a + Join(activities, ActivitySeparator) + b + permissionsXml + c
  {
    PlaceholdersStartOnce();
    ReplaceTwoInOrder(a, ActivitiesPlaceholder, b, PermissionsPlaceholder, c,
                      Join(activities, ActivitySeparator), permissionsXml);
  }

  /** Each placeholder's opening `<` does not recur in it. */
  lemma PlaceholdersStartOnce()
    ensures |ActivitiesPlaceholder| > 0 && forall k :: 0 < k < |ActivitiesPlaceholder| ==> ActivitiesPlaceholder[k] != ActivitiesPlaceholder[0]
    ensures |PermissionsPlaceholder| > 0 && forall k :: 0 < k < |PermissionsPlaceholder| ==> PermissionsPlaceholder[k] != PermissionsPlaceholder[0]
  {
  }

  /** The manifest contents generate_android_manifest writes for a rendered template. */
  method GenerateManifestContents(template: string, moduleMethods: seq<string>) returns (contents: string)
    ensures contents == SubstituteManifest(template,
                          AddAbsent([], MappedActivitiesAsWritten(moduleMethods)),
                          PermissionsXml(AddAbsent(BasePermissions, MappedPermissions(moduleMethods))))
  {
    var permissions, activities := CollectManifestEntries(moduleMethods);
    var xml := BuildPermissionsXml(permissions);
    contents := SubstituteManifest(template, activities, xml);
  }
}
