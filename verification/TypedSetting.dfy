/** The ConfigMap data made from settings, and its incremental refresh
    (internal/loader/typed_setting.go; CreateTargetSettings, RefreshKeyValueSettings and
    RefreshFeatureFlagSettings in internal/loader/configuration_setting_loader.go;
    shouldCreateOrUpdateConfigMap in internal/controller/utils.go). */
module TypedSetting {
  import opened Decimal
  import opened Wrappers
  import opened T = Tree
  import opened TreeNode
  import opened TreeNames
  import Jsonc

  datatype DataType = Default | Properties | YamlType | JsonType

  datatype DataOptions = DataOptions(kind: DataType, key: string, separator: Option<string>)

  type Fields = map<string, Json>
  type Data = map<string, string>

  const FEATURE_MANAGEMENT: string := "feature_management"

  /** The text formats: the bytes of a text, decoding one JSON value, printing and parsing a
      document, printing properties, splitting a key at a separator. */
  datatype Codec = Codec(
    bytes: string -> seq<Jsonc.byte>,
    decode: seq<Jsonc.byte> -> Option<Json>,
    print_: (DataType, Fields) -> string,
    parse: (DataType, string) -> Option<Fields>,
    printProperties: Data -> string,
    split: (string, string) -> seq<string>)

  /** A document that is printed and parsed back is the same document. */
  ghost predicate Inverse(c: Codec) {
    forall kind, doc :: c.parse(kind, c.print_(kind, doc)) == Some(doc)
  }

  predicate IsDocument(options: Option<DataOptions>) {
    options.Some? && options.value.kind in {YamlType, JsonType}
  }

  // ---------------------------------------------------------------- shaping key-values

  /** What a setting contributes to a document: null for a missing value, the decoded value
      of a JSON setting, the text otherwise. A JSON setting that does not decode stays text,
      also when it would decode once its comments are stripped: the original decodes the
      stripped text but drops the result. */
  function ParsedValue(c: Codec, value: Option<string>, isJson: bool): Json {
    if value.None? then Null
    else if isJson && c.decode(c.bytes(value.value)).Some? then c.decode(c.bytes(value.value)).value
    else Text(value.value)
  }

  /** The value of a text once its comments are stripped. */
  function DecodedStripped(c: Codec, text: string): Option<Json> {
    c.decode(Jsonc.Strip(Jsonc.Code, c.bytes(text)))
  }

  /** What the second decoding is there for: a JSON setting with comments contributes the
      value that it has without them. */
  function IntendedValue(c: Codec, value: Option<string>, isJson: bool): Json {
    if value.None? then Null
    else if !isJson then Text(value.value)
    else if c.decode(c.bytes(value.value)).Some? then c.decode(c.bytes(value.value)).value
    else DecodedStripped(c, value.value).GetOr(Text(value.value))
  }

  /** The original's steps, with the second decoding and its dropped result. */
  method ParseValue(c: Codec, text: string, isJson: bool) returns (value: Json)
    ensures value == ParsedValue(c, Some(text), isJson)
  {
    value := Text(text);
    if isJson {
      var data := c.bytes(text);
      var out := c.decode(data);
      if out.None? {
        var stripped := Jsonc.StripComments(data);
        out := c.decode(stripped);
      } else {
        value := out.value;
      }
    }
  }

  /** A setting contributes the intended value exactly when it is no JSON setting, or decodes
      as it stands, or does not decode without its comments either, or is without them the
      JSON string of its own text. */
  lemma IntendedExactly(c: Codec, value: Option<string>, isJson: bool)
    ensures ParsedValue(c, value, isJson) == IntendedValue(c, value, isJson) <==>
              || value.None? || !isJson || c.decode(c.bytes(value.value)).Some?
              || DecodedStripped(c, value.value) in {None, Some(Text(value.value))}
  {
  }

  /** Only a text with comments misses the intended value. */
  lemma CommentFreeIsIntended(c: Codec, text: string, isJson: bool)
    requires Jsonc.CommentFree(Jsonc.Code, c.bytes(text))
    ensures ParsedValue(c, Some(text), isJson) == IntendedValue(c, Some(text), isJson)
  {
    Jsonc.CommentFreeIsUnchanged(Jsonc.Code, c.bytes(text));
  }

  /** A number with a comment stays text, although without the comment it decodes. */
  lemma CommentedNumberStaysText(c: Codec)
    requires c.bytes("1//x") == [49, 47, 47, 120]
    requires c.decode([49, 47, 47, 120]) == None && c.decode([49]) == Some(Atom(1))
    ensures ParsedValue(c, Some("1//x"), true) == Text("1//x")
    ensures IntendedValue(c, Some("1//x"), true) == Atom(1)
  {
    var data: seq<Jsonc.byte> := [49, 47, 47, 120];
    assert data[1..] == [47, 47, 120] && data[1..][2..] == [120] && [120][1..] == [];
    assert Jsonc.Strip(Jsonc.LineComment, [120]) == [];
    assert Jsonc.Strip(Jsonc.Code, [47, 47, 120]) == [];
    assert Jsonc.Strip(Jsonc.Code, data) == [49];
  }

  /** Key-values as they go into a ConfigMap: text by key, and the fields of a document. */
  datatype KeyValues = KeyValues(plain: Data, fields: Fields)

  /** The settings to insert in the tree, in the order in which the map was visited. */
  function TreeSettings(c: Codec, settings: map<string, Option<string>>, isJson: map<string, bool>, separator: string,
                        order: seq<string>): seq<Setting>
    requires forall k :: k in order ==> k in settings
  {
    seq(|order|, i requires 0 <= i < |order| =>
      assert order[i] in order;
      Setting(c.split(order[i], separator), ParsedValue(c, settings[order[i]], order[i] in isJson && isJson[order[i]])))
  }

  /** order lists each of the keys once. */
  ghost predicate Lists(order: seq<string>, keys: set<string>) {
    (forall k :: k in order <==> k in keys) && forall i, j :: 0 <= i < j < |order| ==> order[i] != order[j]
  }

  lemma ListsOneMore(order: seq<string>, keys: set<string>, k: string)
    requires Lists(order, keys) && k !in keys
    ensures Lists(order + [k], keys + {k})
  {
    assert forall i :: 0 <= i < |order| ==> order[i] in order;
  }

  /** The fields of the settings with the given keys, without splitting. */
  function FlatFields(c: Codec, settings: map<string, Option<string>>, isJson: map<string, bool>,
                      keys: set<string>): Fields
    requires keys <= settings.Keys
  {
    map k | k in keys :: ParsedValue(c, settings[k], k in isJson && isJson[k])
  }

  /** Each field is what its setting contributes: null without a value, the decoded value of a JSON
      setting that decodes as it stands, and its text otherwise. */
  lemma FieldsAreContributed(c: Codec, settings: map<string, Option<string>>, isJson: map<string, bool>, k: string)
    ensures var fields := FlatFields(c, settings, isJson, settings.Keys);
            && (k in fields <==> k in settings)
            && (k in settings ==>
                  match settings[k]
                  case None => fields[k] == Null
                  case Some(text) =>
                    var decoded := c.decode(c.bytes(text));
                    fields[k] == if k in isJson && isJson[k] && decoded.Some? then decoded.value else Text(text))
  {
  }

  lemma OneMoreSetting(c: Codec, settings: map<string, Option<string>>, isJson: map<string, bool>, separator: string,
                       order: seq<string>, k: string)
    requires k in settings && forall x :: x in order ==> x in settings
    ensures var next := Setting(c.split(k, separator), ParsedValue(c, settings[k], k in isJson && isJson[k]));
            InsertAll(EMPTY, TreeSettings(c, settings, isJson, separator, order + [k]))
            == Insert(InsertAll(EMPTY, TreeSettings(c, settings, isJson, separator, order)), next.path, next.value)
  {
    var next := Setting(c.split(k, separator), ParsedValue(c, settings[k], k in isJson && isJson[k]));
    assert TreeSettings(c, settings, isJson, separator, order + [k])
        == TreeSettings(c, settings, isJson, separator, order) + [next];
    InsertLast(EMPTY, TreeSettings(c, settings, isJson, separator, order), next);
  }

  lemma MissingIsNull(c: Codec, isJson: bool)
    ensures ParsedValue(c, None, isJson) == Null
  {
  }

  lemma EmptyTree(c: Codec, settings: map<string, Option<string>>, isJson: map<string, bool>, separator: string)
    ensures InsertAll(EMPTY, TreeSettings(c, settings, isJson, separator, [])) == EMPTY
  {
  }

  /** Splitting some key, or going on within its value, leads through the path. */
  ghost predicate KeyTouches(c: Codec, settings: map<string, Option<string>>, isJson: map<string, bool>,
                             separator: string, path: seq<string>)
  {
    exists k :: k in settings
                && TouchedBy(Setting(c.split(k, separator), ParsedValue(c, settings[k], k in isJson && isJson[k])),
                             path)
  }

  /** The names with which keys go on below a path. */
  ghost predicate KeyNamesBelow(c: Codec, settings: map<string, Option<string>>, isJson: map<string, bool>,
                                separator: string, path: seq<string>, names: set<string>)
  {
    forall n :: n in names <==> KeyTouches(c, settings, isJson, separator, path + [n])
  }

  /** Nowhere below the root do the keys go on with names that make an array and of which two
      read as the same number. */
  ghost predicate KeysBuild(c: Codec, settings: map<string, Option<string>>, isJson: map<string, bool>,
                            separator: string) {
    forall path, names ::
      path != [] && KeyNamesBelow(c, settings, isJson, separator, path, names) ==> NoCollision(names)
  }

  /** Whether the tree of the keys has a document is decided by the keys, in any order. */
  lemma KeysBuildExactly(c: Codec, settings: map<string, Option<string>>, isJson: map<string, bool>, separator: string,
                         order: seq<string>)
    requires Lists(order, settings.Keys)
    ensures Build(InsertAll(EMPTY, TreeSettings(c, settings, isJson, separator, order))).Some?
            <==> KeysBuild(c, settings, isJson, separator)
  {
    hide Build, InsertAll, SomeTouch, KeyTouches, NoCollision;
    var all := TreeSettings(c, settings, isJson, separator, order);
    BuildsByPaths(all);
    forall path: seq<string>, names: set<string>
      ensures NamesBelow(all, path, names) <==> KeyNamesBelow(c, settings, isJson, separator, path, names)
    {
      forall n
        ensures SomeTouch(all, path + [n]) <==> KeyTouches(c, settings, isJson, separator, path + [n])
      {
        ListedTouch(c, settings, isJson, separator, order, path + [n]);
      }
    }
  }

  lemma ListedTouch(c: Codec, settings: map<string, Option<string>>, isJson: map<string, bool>, separator: string,
                    order: seq<string>, path: seq<string>)
    requires Lists(order, settings.Keys)
    ensures SomeTouch(TreeSettings(c, settings, isJson, separator, order), path)
            <==> KeyTouches(c, settings, isJson, separator, path)
  {
    hide TouchedBy, ParsedValue;
    var all := TreeSettings(c, settings, isJson, separator, order);
    if SomeTouch(all, path) {
      var x :| x in all && TouchedBy(x, path);
      var i :| 0 <= i < |all| && all[i] == x;
      assert order[i] in order && order[i] in settings;
    }
    if KeyTouches(c, settings, isJson, separator, path) {
      var k :| k in settings
               && TouchedBy(Setting(c.split(k, separator), ParsedValue(c, settings[k], k in isJson && isJson[k])),
                            path);
      assert k in order;
      var i :| 0 <= i < |order| && order[i] == k;
      assert all[i] in all;
    }
  }

  /** Fills the fields of a document from the settings, visited in any order. Without a
      separator every key is a field; with one the keys are split and put in a tree, and the
      result is None where building the tree's document fails. */
  method ParseSettings(c: Codec, settings: map<string, Option<string>>, isJson: map<string, bool>,
                       separator: Option<string>)
    returns (fields: Option<Fields>, ghost order: seq<string>)
    ensures Lists(order, settings.Keys)
    ensures separator.None? ==> fields == Some(FlatFields(c, settings, isJson, settings.Keys))
    ensures separator.Some? ==>
              var document := Build(InsertAll(EMPTY, TreeSettings(c, settings, isJson, separator.value, order)));
              (fields.Some? <==> document.Some?) && (fields.Some? ==> document.value == Obj(fields.value))
  {
    hide InsertAll, ParsedValue;
    EmptyTree(c, settings, isJson, separator.GetOr(""));
    var root := new Node();
    var parsed: Fields := map[];
    var left := settings.Keys;
    order := [];
    while left != {}
      invariant left <= settings.Keys
      invariant Lists(order, settings.Keys - left)
      invariant root.Valid() && fresh(root.Repr)
      invariant separator.None? ==> parsed == FlatFields(c, settings, isJson, settings.Keys - left)
      invariant separator.Some? ==>
                  root.tree == InsertAll(EMPTY, TreeSettings(c, settings, isJson, separator.value, order))
      decreases left
    {
      var k :| k in left;
      var value := Null;
      if settings[k].Some? {
        value := ParseValue(c, settings[k].value, k in isJson && isJson[k]);
      } else {
        MissingIsNull(c, k in isJson && isJson[k]);
      }
      if separator.Some? {
        OneMoreSetting(c, settings, isJson, separator.value, order, k);
        root.Insert(c.split(k, separator.value), value);
      } else {
        parsed := parsed[k := value];
      }
      ListsOneMore(order, settings.Keys - left, k);
      order := order + [k];
      left := left - {k};
      assert settings.Keys - left == settings.Keys - (left + {k}) + {k};
    }
    assert settings.Keys - left == settings.Keys;
    if separator.Some? {
      var document := BuildRoot(root);
      fields := if document.None? then None else Some(document.value.fields);
    } else {
      fields := Some(parsed);
    }
  }

  /** Two keys that collide once they are split: whatever the map order, no document is built. */
  lemma CollidingKeysFail(c: Codec, order: seq<string>)
    requires c.split("a.0", ".") == ["a", "0"] && c.split("a.00", ".") == ["a", "00"]
    requires Lists(order, {"a.0", "a.00"})
    ensures Build(InsertAll(EMPTY, TreeSettings(c, map["a.0" := Some("x"), "a.00" := Some("y")], map[], ".", order)))
            == None
  {
    hide InsertAll, Build, Atoi;
    NamesCollide();
    var settings := map["a.0" := Some("x"), "a.00" := Some("y")];
    TwoKeysInOrder(order, "a.0", "a.00");
    if order == ["a.0", "a.00"] {
      assert TreeSettings(c, settings, map[], ".", order)
             == [Setting(["a", "0"], Text("x")), Setting(["a", "00"], Text("y"))];
      CollidingNamesDoNotBuild("a", "0", "00", Text("x"), Text("y"));
    } else {
      assert TreeSettings(c, settings, map[], ".", order)
             == [Setting(["a", "00"], Text("y")), Setting(["a", "0"], Text("x"))];
      CollidingNamesDoNotBuild("a", "00", "0", Text("y"), Text("x"));
    }
  }

  /** In terms of the keys: they do not build. */
  lemma CollidingKeysDoNotBuild(c: Codec)
    requires c.split("a.0", ".") == ["a", "0"] && c.split("a.00", ".") == ["a", "00"]
    ensures !KeysBuild(c, map["a.0" := Some("x"), "a.00" := Some("y")], map[], ".")
  {
    hide Build, InsertAll, KeysBuild;
    var order := ["a.0", "a.00"];
    CollidingKeysFail(c, order);
    KeysBuildExactly(c, map["a.0" := Some("x"), "a.00" := Some("y")], map[], ".", order);
  }

  lemma TwoKeysInOrder(order: seq<string>, a: string, b: string)
    requires a != b && Lists(order, {a, b})
    ensures order == [a, b] || order == [b, a]
  {
    ListsLength(order, {a, b});
    assert order[0] in order && order[1] in order;
  }

  lemma {:induction false} ListsLength(order: seq<string>, keys: set<string>)
    requires Lists(order, keys)
    ensures |order| == |keys|
  {
    if order == [] {
      assert keys == {};
    } else {
      var init, last := order[..|order| - 1], order[|order| - 1];
      assert order == init + [last] && last in order;
      assert last !in init;
      ListsLength(init, keys - {last});
    }
  }

  lemma {:induction false} InsertLast(t: Tree, settings: seq<Setting>, s: Setting)
    ensures InsertAll(t, settings + [s]) == Insert(InsertAll(t, settings), s.path, s.value)
    decreases settings
  {
    if settings == [] {
      assert InsertAll(Insert(t, s.path, s.value), []) == Insert(t, s.path, s.value);
    } else {
      assert (settings + [s])[1..] == settings[1..] + [s];
      InsertLast(Insert(t, settings[0].path, settings[0].value), settings[1..], s);
    }
  }

  // ---------------------------------------------------------------- the data

  /** The data that key-values and the feature-flag section, if any, make. */
  function Typed(c: Codec, kv: KeyValues, flags: Option<Fields>, options: Option<DataOptions>): Data {
    if kv.fields == map[] && flags.None? then map[]
    else if options.None? || options.value.kind == Default then kv.plain
    else if options.value.kind == Properties then map[options.value.key := c.printProperties(kv.plain)]
    else map[options.value.key := c.print_(options.value.kind, WithFlags(kv.fields, flags))]
  }

  function WithFlags(fields: Fields, flags: Option<Fields>): Fields {
    if flags.Some? then fields[FEATURE_MANAGEMENT := Obj(flags.value)] else fields
  }

  /** The feature-flag section and the rest of the document that the data holds; an error
      when there is no document at the key, or no feature-flag section in it. */
  function UnmarshalConfigMap(c: Codec, data: Data, options: DataOptions): Option<(Fields, Fields)> {
    if options.key !in data || options.kind in {Default, Properties} then None
    else match c.parse(options.kind, data[options.key])
      case None => None
      case Some(fields) =>
        if FEATURE_MANAGEMENT in fields && fields[FEATURE_MANAGEMENT].Obj?
        then Some((fields[FEATURE_MANAGEMENT].fields, fields - {FEATURE_MANAGEMENT}))
        else None
  }

  /** New key-values on the feature-flag section of the existing data. */
  function RefreshKeyValues(c: Codec, kv: KeyValues, existing: Data, featureFlags: bool,
                            options: Option<DataOptions>): Option<Data>
    requires featureFlags ==> options.Some?
  {
    if !featureFlags then Some(Typed(c, kv, None, options))
    else match UnmarshalConfigMap(c, existing, options.value)
      case None => None
      case Some((flags, _)) => Some(Typed(c, kv, Some(flags), options))
  }

  /** A new feature-flag section on the rest of the existing document. */
  function RefreshFeatureFlags(c: Codec, flags: Fields, existing: Data, options: DataOptions): Option<Data> {
    match UnmarshalConfigMap(c, existing, options)
    case None => None
    case Some((_, rest)) => Some(map[options.key := c.print_(options.kind, rest[FEATURE_MANAGEMENT := Obj(flags)])])
  }

  // ---------------------------------------------------------------- writing only changes

  /** What a reader of the data sees of it: the parsed document at the key, or all of it. */
  function ParsedAt(c: Codec, data: Data, options: DataOptions): Option<Fields> {
    if options.key in data then c.parse(options.kind, data[options.key]) else None
  }

  /** An empty Data map comes back from the API server as nil, so it is always written. */
  predicate ShouldCreateOrUpdateConfigMap(c: Codec, existing: Data, latest: Data, options: Option<DataOptions>) {
    if existing == map[] then true
    else if !IsDocument(options) then existing != latest
    else if options.value.key !in existing then true
    else ParsedAt(c, existing, options.value) != ParsedAt(c, latest, options.value)
  }

  /** The ConfigMap data stands for the latest data: it is the same, or, for a document, it
      has the same document at the key. */
  ghost predicate Reflects(c: Codec, existing: Data, latest: Data, options: Option<DataOptions>) {
    if IsDocument(options) then
      && ParsedAt(c, existing, options.value) == ParsedAt(c, latest, options.value)
      && (options.value.key in latest ==> options.value.key in existing)
    else existing == latest
  }

  /** Writing the latest data, and leaving out a write that is not needed, both end with a
      ConfigMap that stands for it. */
  lemma WrittenOrSkippedReflects(c: Codec, existing: Data, latest: Data, options: Option<DataOptions>)
    ensures Reflects(c, latest, latest, options)
    ensures !ShouldCreateOrUpdateConfigMap(c, existing, latest, options) ==> Reflects(c, existing, latest, options)
  {
  }

  /** The data that is live after the latest data is written, or its write left out. */
  function WrittenData(c: Codec, existing: Option<Data>, latest: Data, options: Option<DataOptions>): Data {
    if existing.Some? && !ShouldCreateOrUpdateConfigMap(c, existing.value, latest, options) then existing.value
      else latest
  }

  /** The live data becomes the latest exactly when it is no document, or there was no
      ConfigMap with a document at the key, or that document was another, or nothing at all
      was different. What else differs, such as other keys, is not repaired. */
  lemma WrittenIsLatestExactly(c: Codec, existing: Option<Data>, latest: Data, options: Option<DataOptions>)
    ensures WrittenData(c, existing, latest, options) == latest <==>
              || !IsDocument(options) || existing.None? || existing.value == latest
              || options.value.key !in existing.value
              || ParsedAt(c, existing.value, options.value) != ParsedAt(c, latest, options.value)
  {
  }

  /** An extra key beside an unchanged document stays. */
  lemma ExtraKeyStays(c: Codec, latest: Data, options: Option<DataOptions>, extra: string, text: string)
    requires IsDocument(options) && options.value.key in latest && extra !in latest
    ensures WrittenData(c, Some(latest[extra := text]), latest, options) == latest[extra := text] != latest
  {
    assert extra in latest[extra := text];
  }

  // ---------------------------------------------------------------- what the data holds

  /** A document has the fields of the key-values, and the section of the flags, if there are
      any, in place of what a key-value of that name says. */
  ghost predicate IsDocumentOf(kv: KeyValues, flags: Option<Fields>, doc: Fields) {
    && (forall k :: k != "feature_management" ==>
          (k in doc <==> k in kv.fields) && (k in doc ==> doc[k] == kv.fields[k]))
    && if flags.Some? then "feature_management" in doc && doc["feature_management"] == Obj(flags.value)
       else
         && ("feature_management" in doc <==> "feature_management" in kv.fields)
         && ("feature_management" in doc ==> doc["feature_management"] == kv.fields["feature_management"])
  }

  /** The data that is due to key-values and flags: nothing if there are none, the texts by key,
      one entry of printed properties, or one entry that parses as the document. */
  ghost predicate Holds(c: Codec, kv: KeyValues, flags: Option<Fields>, options: Option<DataOptions>, data: Data) {
    if kv.fields == map[] && flags.None? then data == map[]
    else if IsDocument(options)
    then (forall k :: k in data <==> k == options.value.key) && ShowsDocument(c, kv, flags, options.value, data)
    else if options.Some? && options.value.kind == Properties
    then data == map[options.value.key := c.printProperties(kv.plain)]
    else data == kv.plain
  }

  ghost predicate ShowsDocument(c: Codec, kv: KeyValues, flags: Option<Fields>, options: DataOptions, data: Data) {
    var doc := if options.key in data then c.parse(options.kind, data[options.key]) else None;
    if kv.fields == map[] && flags.None? then doc == None else doc.Some? && IsDocumentOf(kv, flags, doc.value)
  }

  /** What a reader finds in such data, who looks for a document only at its key. */
  ghost predicate Shows(c: Codec, kv: KeyValues, flags: Option<Fields>, options: Option<DataOptions>, data: Data) {
    if IsDocument(options) then ShowsDocument(c, kv, flags, options.value, data) else Holds(c, kv, flags, options, data)
  }

  lemma OneDocument(kv: KeyValues, flags: Option<Fields>, doc: Fields)
    ensures IsDocumentOf(kv, flags, doc) <==> doc == WithFlags(kv.fields, flags)
  {
    if IsDocumentOf(kv, flags, doc) {
      assert forall k :: k in doc <==> k in WithFlags(kv.fields, flags);
      assert forall k :: k in doc ==> doc[k] == WithFlags(kv.fields, flags)[k];
    }
  }

  /** The data that is made is the data that is due. */
  lemma TypedHolds(c: Codec, kv: KeyValues, flags: Option<Fields>, options: Option<DataOptions>)
    requires Inverse(c)
    ensures Holds(c, kv, flags, options, Typed(c, kv, flags, options))
  {
    OneDocument(kv, flags, WithFlags(kv.fields, flags));
  }

  /** Live data stands for the data that is made exactly when a reader finds in it what is due. */
  lemma ReflectsExactly(c: Codec, kv: KeyValues, flags: Option<Fields>, options: Option<DataOptions>, data: Data)
    requires Inverse(c)
    ensures Reflects(c, data, Typed(c, kv, flags, options), options) <==> Shows(c, kv, flags, options, data)
  {
    TypedHolds(c, kv, flags, options);
    if IsDocument(options) && ParsedAt(c, data, options.value).Some? {
      OneDocument(kv, flags, ParsedAt(c, data, options.value).value);
    }
  }

  /** A refresh of flags fails exactly when there is no document at the key, or no section of
      flags in it; otherwise it replaces the section and keeps all other fields. */
  lemma FlagRefreshReplaces(c: Codec, flags: Fields, existing: Data, options: DataOptions)
    requires Inverse(c)
    ensures var doc := if options.key in existing then c.parse(options.kind, existing[options.key]) else None;
            var data := RefreshFeatureFlags(c, flags, existing, options);
            && (data.Some? <==>
                  && options.kind !in {Default, Properties} && doc.Some?
                  && "feature_management" in doc.value && doc.value["feature_management"].Obj?)
            && (data.Some? ==>
                  && (forall k :: k in data.value <==> k == options.key)
                  && c.parse(options.kind, data.value[options.key])
                     == Some(doc.value["feature_management" := Obj(flags)]))
  {
    if options.key in existing && c.parse(options.kind, existing[options.key]).Some? {
      var doc := c.parse(options.kind, existing[options.key]).value;
      var replaced := doc["feature_management" := Obj(flags)];
      assert (doc - {FEATURE_MANAGEMENT})[FEATURE_MANAGEMENT := Obj(flags)] == replaced;
    }
  }

  /** A refresh of key-values fails exactly when flags are wanted and there is no section of
      them; otherwise its data is that of the new key-values with the flags that are there. */
  lemma KeyValueRefreshKeeps(c: Codec, kv: KeyValues, existing: Data, featureFlags: bool, options: Option<DataOptions>)
    requires Inverse(c) && (featureFlags ==> options.Some?)
    ensures var doc := if options.Some? && options.value.key in existing
                       then c.parse(options.value.kind, existing[options.value.key]) else None;
            var data := RefreshKeyValues(c, kv, existing, featureFlags, options);
            && (data.Some? <==>
                  (featureFlags ==>
                     && IsDocument(options) && doc.Some?
                     && "feature_management" in doc.value && doc.value["feature_management"].Obj?))
            && (data.Some? ==>
                  Holds(c, kv, if featureFlags then Some(doc.value["feature_management"].fields) else None, options,
                        data.value))
  {
    TypedHolds(c, kv, None, options);
    if featureFlags && UnmarshalConfigMap(c, existing, options.value).Some? {
      TypedHolds(c, kv, Some(UnmarshalConfigMap(c, existing, options.value).value.0), options);
    }
  }

  // ---------------------------------------------------------------- incremental is full

  /** A feature-flag refresh of data that stands for a full load of kv and flags gives the
      data of a full load of kv and the new flags. */
  lemma FeatureFlagRefreshIsFull(c: Codec, kv: KeyValues, flags: Fields, flags': Fields, existing: Data,
                                 options: Option<DataOptions>)
    requires Inverse(c) && IsDocument(options)
    requires Reflects(c, existing, Typed(c, kv, Some(flags), options), options)
    ensures RefreshFeatureFlags(c, flags', existing, options.value) == Some(Typed(c, kv, Some(flags'), options))
    ensures Holds(c, kv, Some(flags'), options, Typed(c, kv, Some(flags'), options))
  {
    TypedHolds(c, kv, Some(flags'), options);
    var fields := WithFlags(kv.fields, Some(flags));
    assert ParsedAt(c, existing, options.value) == Some(fields);
    assert (fields - {FEATURE_MANAGEMENT})[FEATURE_MANAGEMENT := Obj(flags')] == WithFlags(kv.fields, Some(flags'));
  }

  /** A key-value refresh of data that stands for a full load of kv and flags gives the data of
      a full load of the new key-values and the flags. */
  lemma KeyValueRefreshIsFull(c: Codec, kv: KeyValues, flags: Option<Fields>, kv': KeyValues, existing: Data,
                              options: Option<DataOptions>)
    requires Inverse(c) && (flags.Some? ==> IsDocument(options))
    requires flags.Some? ==> Reflects(c, existing, Typed(c, kv, flags, options), options)
    ensures RefreshKeyValues(c, kv', existing, flags.Some?, options) == Some(Typed(c, kv', flags, options))
    ensures Holds(c, kv', flags, options, Typed(c, kv', flags, options))
  {
    TypedHolds(c, kv', flags, options);
    if flags.Some? {
      assert ParsedAt(c, existing, options.value) == Some(WithFlags(kv.fields, flags));
    }
  }

  /** Both refreshes in one run, the second on the outcome of the first. */
  lemma BothRefreshesAreFull(c: Codec, kv: KeyValues, flags: Fields, kv': KeyValues, flags': Fields, existing: Data,
                             options: Option<DataOptions>)
    requires Inverse(c) && IsDocument(options)
    requires Reflects(c, existing, Typed(c, kv, Some(flags), options), options)
    ensures var first := RefreshFeatureFlags(c, flags', existing, options.value);
            && first.Some?
            && RefreshKeyValues(c, kv', first.value, true, options) == Some(Typed(c, kv', Some(flags'), options))
    ensures Holds(c, kv', Some(flags'), options, Typed(c, kv', Some(flags'), options))
  {
    FeatureFlagRefreshIsFull(c, kv, flags, flags', existing, options);
    var first := Typed(c, kv, Some(flags'), options);
    WrittenOrSkippedReflects(c, first, first, options);
    KeyValueRefreshIsFull(c, kv, Some(flags'), kv', first, options);
  }
}
