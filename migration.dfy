/**
 * The start-up migration of the stored user record (`updateNestedProperties`):
 * every field the default user has and the stored record lacks is filled
 * in, object-valued fields are merged recursively, and three keys get
 * special treatment (`categories`, `colorList`, an old array-shaped
 * `settings`). Values are JSON values; absence is `None`.
 */
module Migration {
  import opened Wrappers

  /** A JSON value. Numbers are integers here. */
  datatype Json =
    | Null
    | Bool(b: bool)
    | Num(n: int)
    | Str(s: string)
    | Arr(items: seq<Json>)
    | Obj(fields: map<string, Json>)

  /** JavaScript falsiness of a possibly absent value (`undefined`, `null`, `false`, `0`, `""`). */
  predicate Falsy(v: Option<Json>) {
    v.None? || v.value == Null || v.value == Bool(false) || v.value == Num(0) || v.value == Str("")
  }

  /** `typeof v === "object" && v !== null`: arrays and objects. */
  predicate IsObject(v: Json) {
    v.Arr? || v.Obj?
  }

  /** Reading a key of an object: `undefined` when it is not there. */
  function Lookup(m: map<string, Json>, k: string): (r: Option<Json>)
    ensures r.Some? <==> k in m
    ensures r.Some? ==> r.value == m[k]
  {
    if k in m then Some(m[k]) else None
  }

  /** Reading an index: only an array has elements; any other value reads as `undefined`. */
  function ElementAt(v: Json, i: nat): Option<Json> {
    if v.Arr? && i < |v.items| then Some(v.items[i]) else None
  }

  /** The default colour list (defaultUser.ts:30-44). */
  const DefaultColorList: seq<string> := [
    "#FF69B4", "#FF22B4", "#C6A7FF", "#7ACCFA", "#4898F4", "#5061FF", "#3DFF7F",
    "#3AE836", "#FFEA28", "#F9BE26", "#FF9518", "#FF5018", "#FF2F2F"]

  /**
   * Lines 39-41: the current user's colour list is set and does not start
   * with the default colours, element by element.
   */
  predicate ColorListCustomised(colors: Option<Json>) {
    !Falsy(colors)
    && !(forall i :: 0 <= i < |DefaultColorList| ==> ElementAt(colors.value, i) == Some(Str(DefaultColorList[i])))
  }

  /** Whether visiting `k` leaves it alone (lines 35-44). */
  predicate Skipped(k: string, colors: Option<Json>) {
    k == "categories" || (k == "colorList" && ColorListCustomised(colors))
  }

  /**
   * The merge of a possibly absent stored value `u` with the default `d`;
   * `colors` is the current user's colour list. A falsy stored value gives
   * the default; objects merge key by key and arrays index by index; any
   * other stored value is kept.
   */
  function Merge(u: Option<Json>, d: Json, colors: Option<Json>): Json
    decreases d, 2
  {
    if Falsy(u) then d
    else if d.Obj? && u.value.Obj? then Obj(MergeFields(u.value.fields, d, d.fields.Keys, colors))
    else if d.Arr? && u.value.Arr? then Arr(MergeItems(u.value.items, d, |d.items|, colors))
    else u.value
  }

  /** The value key `k` holds after it has been visited; `uv` is what it held before (lines 35-75). */
  function Visit(k: string, uv: Option<Json>, d: Json, colors: Option<Json>): Option<Json>
    requires d.Obj? && k in d.fields
    decreases d, 0
  {
    if Skipped(k, colors) then uv
    else
      var uv' := if k == "settings" && uv.Some? && uv.value.Arr? then None else uv;
      var dv := d.fields[k];
      if IsObject(dv) then Some(Merge(uv', dv, colors))
      else if uv'.None? then Some(dv)
      else uv'
  }

  /** The stored object's fields once the default keys in `visited` have been visited. */
  function MergeFields(u: map<string, Json>, d: Json, visited: set<string>, colors: Option<Json>): map<string, Json>
    requires d.Obj?
    decreases d, 1
  {
    map k | k in u.Keys + (visited * d.fields.Keys)
              && (k in visited && k in d.fields ==> Visit(k, Lookup(u, k), d, colors).Some?)
          :: if k in visited && k in d.fields then Visit(k, Lookup(u, k), d, colors).value else u[k]
  }

  /** The element at index `j` after it has been visited; `uv` is what it held before (lines 55-61). */
  function VisitItem(j: nat, uv: Option<Json>, d: Json, colors: Option<Json>): Json
    requires d.Arr? && j < |d.items|
    decreases d, 0
  {
    var dv := d.items[j];
    if IsObject(dv) then Merge(uv, dv, colors)
    else if uv.None? then dv
    else uv.value
  }

  function Max(a: int, b: int): int { if a < b then b else a }

  /** The stored array once the default's first `n` indices have been visited. */
  function MergeItems(us: seq<Json>, d: Json, n: nat, colors: Option<Json>): (r: seq<Json>)
    requires d.Arr? && n <= |d.items|
    ensures |r| == Max(|us|, n)
    decreases d, 1
  {
    seq(Max(|us|, n), j requires 0 <= j < Max(|us|, n) =>
      if j < n then VisitItem(j, if j < |us| then Some(us[j]) else None, d, colors) else us[j])
  }

  /** What a key holds once the keys in `visited` have been visited. */
  lemma MergeFieldsAt(u: map<string, Json>, d: Json, visited: set<string>, k: string, colors: Option<Json>)
    requires d.Obj?
    ensures Lookup(MergeFields(u, d, visited, colors), k)
         == if k in visited && k in d.fields then Visit(k, Lookup(u, k), d, colors) else Lookup(u, k)
  {
  }

  /** Visiting one more default key changes that key alone. */
  lemma MergeFieldsStep(u: map<string, Json>, d: Json, visited: set<string>, key: string, colors: Option<Json>)
    requires d.Obj? && key in d.fields && key !in visited
    ensures Lookup(MergeFields(u, d, visited, colors), key) == Lookup(u, key)
    ensures var before := MergeFields(u, d, visited, colors);
            var v := Visit(key, Lookup(u, key), d, colors);
            MergeFields(u, d, visited + {key}, colors) == if v.Some? then before[key := v.value] else before - {key}
  {
  }

  /** Visiting one more default index changes that index alone, appending it when the stored array is shorter. */
  lemma MergeItemsStep(us: seq<Json>, d: Json, i: nat, colors: Option<Json>)
    requires d.Arr? && i < |d.items|
    ensures var before := MergeItems(us, d, i, colors);
            && |before| == Max(|us|, i)
            && (i < |us| ==> before[i] == us[i])
            && var v := VisitItem(i, if i < |us| then Some(us[i]) else None, d, colors);
               MergeItems(us, d, i + 1, colors) == if i < |before| then before[i := v] else before + [v]
  {
  }

  /**
   * Lines 27-81: the in-place migration. Objects are updated key by key over
   * the default's keys, arrays index by index; the result is `Merge`.
   */
  method UpdateNestedProperties(userObject: Option<Json>, defaultObject: Json, colors: Option<Json>) returns (r: Json)
    ensures r == Merge(userObject, defaultObject, colors)
    decreases defaultObject
  {
    if Falsy(userObject) {
      return defaultObject;
    }
    if defaultObject.Obj? && userObject.value.Obj? {
      var fields := userObject.value.fields;
      var keys := defaultObject.fields.Keys;
      ghost var visited: set<string> := {};
      while keys != {}
        invariant keys !! visited && keys + visited == defaultObject.fields.Keys
        invariant fields == MergeFields(userObject.value.fields, defaultObject, visited, colors)
        decreases keys
      {
        var key :| key in keys;
        MergeFieldsStep(userObject.value.fields, defaultObject, visited, key, colors);
        if !Skipped(key, colors) {
          var userValue := Lookup(fields, key);
          if key == "settings" && userValue.Some? && userValue.value.Arr? {
            fields := fields - {key};
            userValue := None;
          }
          var defaultValue := defaultObject.fields[key];
          if IsObject(defaultValue) {
            var merged := UpdateNestedProperties(userValue, defaultValue, colors);
            fields := fields[key := merged];
          } else if userValue.None? {
            fields := fields[key := defaultValue];
          }
        }
        keys := keys - {key};
        visited := visited + {key};
      }
      return Obj(fields);
    }
    if defaultObject.Arr? && userObject.value.Arr? {
      var items := userObject.value.items;
      var i := 0;
      while i < |defaultObject.items|
        invariant 0 <= i <= |defaultObject.items|
        invariant items == MergeItems(userObject.value.items, defaultObject, i, colors)
      {
        MergeItemsStep(userObject.value.items, defaultObject, i, colors);
        var userValue := if i < |items| then Some(items[i]) else None;
        var defaultValue := defaultObject.items[i];
        if IsObject(defaultValue) {
          var merged := UpdateNestedProperties(userValue, defaultValue, colors);
          items := if i < |items| then items[i := merged] else items + [merged];
        } else if userValue.None? {
          items := items + [defaultValue];
        }
        i := i + 1;
      }
      return Arr(items);
    }
    return userObject.value;
  }

  /** Lines 30-32: a missing or falsy stored value is replaced by the whole default. */
  lemma MergeFalsy(u: Option<Json>, d: Json, colors: Option<Json>)
    requires Falsy(u)
    ensures Merge(u, d, colors) == d
  {
  }

  /**
   * Merging a stored object into a default object: no stored key is lost,
   * a default key is added exactly when it is not skipped, keys only the
   * stored object has keep their values, a missing field gets the default,
   * a present field with a scalar default is kept, and a present field with
   * an object default is merged recursively.
   */
  lemma MergeObjectFields(uf: map<string, Json>, df: map<string, Json>, colors: Option<Json>)
    ensures var r := Merge(Some(Obj(uf)), Obj(df), colors);
            && r.Obj?
            && (forall k :: k in r.fields <==> k in uf || (k in df && !Skipped(k, colors)))
            && (forall k :: k in uf && k !in df ==> r.fields[k] == uf[k])
            && (forall k :: k in df && k !in uf && !Skipped(k, colors) ==> r.fields[k] == df[k])
            && (forall k :: k in df && k in uf && !IsObject(df[k]) && !(k == "settings" && uf[k].Arr?) ==> r.fields[k] == uf[k])
            && (forall k :: k in df && k in uf && IsObject(df[k]) && !Skipped(k, colors) && !(k == "settings" && uf[k].Arr?) ==>
                  r.fields[k] == Merge(Some(uf[k]), df[k], colors))
  {
    var f := MergeFields(uf, Obj(df), df.Keys, colors);
    forall k ensures Lookup(f, k) == if k in df then Visit(k, Lookup(uf, k), Obj(df), colors) else Lookup(uf, k) {
      MergeFieldsAt(uf, Obj(df), df.Keys, k, colors);
    }
    forall k | k in df && k !in uf && !Skipped(k, colors) ensures f[k] == df[k] {
      MergeFalsy(None, df[k], colors);
      assert Lookup(f, k) == Visit(k, None, Obj(df), colors);
    }
  }

  /**
   * The special keys: `categories` is never touched, `colorList` is left
   * alone when the current colour list has been customised, and a stored
   * array-shaped `settings` is replaced by the default settings.
   */
  lemma MergeSpecialKeys(uf: map<string, Json>, df: map<string, Json>, colors: Option<Json>)
    ensures var r := Merge(Some(Obj(uf)), Obj(df), colors);
            && r.Obj?
            && Lookup(r.fields, "categories") == Lookup(uf, "categories")
            && (ColorListCustomised(colors) ==> Lookup(r.fields, "colorList") == Lookup(uf, "colorList"))
            && ("settings" in uf && uf["settings"].Arr? && "settings" in df ==> Lookup(r.fields, "settings") == Some(df["settings"]))
  {
    MergeFieldsAt(uf, Obj(df), df.Keys, "categories", colors);
    MergeFieldsAt(uf, Obj(df), df.Keys, "colorList", colors);
    MergeFieldsAt(uf, Obj(df), df.Keys, "settings", colors);
  }

  /** Merging a default into itself gives it back. */
  lemma {:induction false} MergeSelf(d: Json, colors: Option<Json>)
    ensures Merge(Some(d), d, colors) == d
    decreases d, 1
  {
    if !Falsy(Some(d)) {
      if d.Obj? {
        var f := MergeFields(d.fields, d, d.fields.Keys, colors);
        forall k | k in d.fields ensures Visit(k, Some(d.fields[k]), d, colors) == Some(d.fields[k]) {
          if IsObject(d.fields[k]) {
            MergeSelf(d.fields[k], colors);
          }
        }
        assert f == d.fields;
      } else if d.Arr? {
        var items := MergeItems(d.items, d, |d.items|, colors);
        forall j | 0 <= j < |d.items| ensures items[j] == d.items[j] {
          assert items[j] == VisitItem(j, Some(d.items[j]), d, colors);
          if IsObject(d.items[j]) {
            MergeSelf(d.items[j], colors);
          }
        }
        assert items == d.items;
      }
    }
  }

  /** Visiting a key twice is the same as visiting it once. */
  lemma VisitTwice(k: string, uv: Option<Json>, d: Json, colors: Option<Json>)
    requires d.Obj? && k in d.fields
    ensures Visit(k, Visit(k, uv, d, colors), d, colors) == Visit(k, uv, d, colors)
    decreases d, 0
  {
    var dv := d.fields[k];
    if !Skipped(k, colors) && IsObject(dv) {
      var uv' := if k == "settings" && uv.Some? && uv.value.Arr? then None else uv;
      var once := Merge(uv', dv, colors);
      if k == "settings" && once.Arr? {
        assert once == dv;
        MergeSelf(dv, colors);
      } else {
        MergeIdempotent(uv', dv, colors);
      }
    }
  }

  /** Visiting an index twice is the same as visiting it once. */
  lemma VisitItemTwice(j: nat, uv: Option<Json>, d: Json, colors: Option<Json>)
    requires d.Arr? && j < |d.items|
    ensures VisitItem(j, Some(VisitItem(j, uv, d, colors)), d, colors) == VisitItem(j, uv, d, colors)
    decreases d, 0
  {
    if IsObject(d.items[j]) {
      MergeIdempotent(uv, d.items[j], colors);
    }
  }

  /** Lines 25-26: the migration only fills in what is missing, so running it again changes nothing. */
  lemma {:induction false} MergeIdempotent(u: Option<Json>, d: Json, colors: Option<Json>)
    ensures Merge(Some(Merge(u, d, colors)), d, colors) == Merge(u, d, colors)
    decreases d, 1
  {
    if Falsy(u) {
      MergeSelf(d, colors);
    } else if d.Obj? && u.value.Obj? {
      var f := MergeFields(u.value.fields, d, d.fields.Keys, colors);
      var g := MergeFields(f, d, d.fields.Keys, colors);
      forall k | k in d.fields ensures Visit(k, Lookup(f, k), d, colors) == Lookup(f, k) {
        VisitTwice(k, Lookup(u.value.fields, k), d, colors);
      }
      assert g == f;
    } else if d.Arr? && u.value.Arr? {
      var n := |d.items|;
      var items := MergeItems(u.value.items, d, n, colors);
      var again := MergeItems(items, d, n, colors);
      forall j | 0 <= j < n ensures again[j] == items[j] {
        VisitItemTwice(j, if j < |u.value.items| then Some(u.value.items[j]) else None, d, colors);
      }
      assert again == items;
    }
  }

  /** The default settings (defaultUser.ts:20-28). */
  const DefaultSettings: map<string, Json> := map[
    "doneToBottom" := Bool(false), "enableGlow" := Bool(true), "enableCategories" := Bool(true),
    "simpleEmojiPicker" := Bool(false), "enableReadAloud" := Bool(false), "appBadge" := Bool(false),
    "showProgressBar" := Bool(false)]

  /**
   * The default user (defaultUser.ts:8-45). `createdAt` is a `Date`, an
   * object without enumerable keys; the emoji style depends on the
   * operating system and is a parameter.
   */
  function DefaultUser(emojisStyle: string): (d: Json)
    ensures d.Obj? && "settings" in d.fields && d.fields["settings"] == Obj(DefaultSettings)
  {
    Obj(map[
      "name" := Null, "createdAt" := Obj(map[]), "profilePicture" := Null, "emojisStyle" := Str(emojisStyle),
      "tasks" := Arr([]), "categories" := Arr([]), "deletedTasks" := Arr([]), "deletedCategories" := Arr([]),
      "theme" := Str("Ocean Blue"), "darkmode" := Str("auto"), "settings" := Obj(DefaultSettings),
      "colorList" := Arr(seq(|DefaultColorList|, i requires 0 <= i < |DefaultColorList| => Str(DefaultColorList[i])))])
  }

  /** Every default setting is a flag, and none has one of the specially treated names. */
  lemma DefaultSettingsShape()
    ensures forall k :: k in DefaultSettings ==>
              DefaultSettings[k].Bool? && k != "categories" && k != "colorList" && k != "settings"
  {
  }

  /**
   * Lines 58-61 on a settings object: each setting the default has keeps
   * its stored value when it has one and gets its default otherwise, when
   * every default setting is a scalar with an ordinary name (as
   * `DefaultSettings` is).
   */
  lemma StoredSettingsCompleted(stored: map<string, Json>, df: map<string, Json>, colors: Option<Json>)
    requires "settings" in stored && stored["settings"].Obj?
    requires "settings" in df && df["settings"].Obj?
    requires forall k :: k in df["settings"].fields ==>
               !IsObject(df["settings"].fields[k]) && k != "categories" && k != "colorList" && k != "settings"
    ensures var r := Merge(Some(Obj(stored)), Obj(df), colors);
            && r.Obj? && "settings" in r.fields && r.fields["settings"].Obj?
            && var settings := r.fields["settings"].fields;
               var own := stored["settings"].fields;
               forall k :: k in df["settings"].fields ==>
                 k in settings && settings[k] == if k in own then own[k] else df["settings"].fields[k]
  {
    var own := stored["settings"].fields;
    var ds := df["settings"].fields;
    MergeObjectFields(stored, df, colors);
    var inner := Merge(Some(Obj(own)), Obj(ds), colors);
    MergeObjectFields(own, ds, colors);
  }

  /**
   * Start-up on a stored user whose `settings` is an object: every one of
   * the seven default flags ends up present, with the stored value when the
   * user had one and the default otherwise.
   */
  lemma StoredUserSettingsCompleted(stored: map<string, Json>, emojisStyle: string, colors: Option<Json>)
    requires "settings" in stored && stored["settings"].Obj?
    ensures var r := Merge(Some(Obj(stored)), DefaultUser(emojisStyle), colors);
            && r.Obj? && "settings" in r.fields && r.fields["settings"].Obj?
            && var settings := r.fields["settings"].fields;
               var own := stored["settings"].fields;
               forall k :: k in DefaultSettings ==>
                 k in settings && settings[k] == if k in own then own[k] else DefaultSettings[k]
  {
    var d := DefaultUser(emojisStyle);
    DefaultSettingsShape();
    StoredSettingsCompleted(stored, d.fields, colors);
  }
}
