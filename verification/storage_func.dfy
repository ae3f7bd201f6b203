/** The exported operations of data/storageFunc.ts as pure functions from the
    medium before the call to the value returned and the medium after it.
    Reads return no new medium: none of them writes. */
module StorageFunc {
  import opened JsResults
  import opened Json
  import opened Medium
  import opened Keys

  // ---------------------------------------------------------------------------
  // The three patterns every exported operation follows

  /** Writing one slot: true when the write goes through, false when it throws. */
  function Save(st: Store, key: string, v: Value): (r: Step<bool>)
    ensures r.result <==> st.writable
    ensures r.store.writable == st.writable
    ensures r.result ==> key in r.store.entries && r.store.entries[key] == Text(v)
    ensures forall k :: k != key ==> Agree(st, r.store, k)
    ensures !r.result ==> r.store == st
  {
    match SetItem(st, key, v)
    case Returned(st') => Step(true, st')
    case Threw => Step(false, st)
  }

  /** Removing one slot: true when the removal goes through, false when it throws. */
  function Remove(st: Store, key: string): (r: Step<bool>)
    ensures r.result <==> st.writable
    ensures r.store.writable == st.writable
    ensures r.result ==> key !in r.store.entries
    ensures forall k :: k != key ==> Agree(st, r.store, k)
    ensures !r.result ==> r.store == st
  {
    match RemoveItem(st, key)
    case Returned(st') => Step(true, st')
    case Threw => Step(false, st)
  }

  /** Reading one slot, with None for the `false` answered when the read
      throws or finds a falsy value: only a stored, parsable, truthy value is found. */
  function Read(st: Store, key: string): (r: Option<Value>)
    ensures r.Some? <==> key in st.entries && st.entries[key].Text? && Truthy(st.entries[key].v)
    ensures r.Some? ==> st.entries[key] == Text(r.value)
  {
    match GetItem(st, key)
    case Returned(v) => if Truthy(v) then Some(v) else None
    case Threw => None
  }

  /** Reading one slot with a default: the stored truthy value when there is
      one, the default when the read throws or finds a missing or falsy value. */
  function ReadOr(st: Store, key: string, fallback: Value): (r: Value)
    ensures Truthy(fallback) ==> Truthy(r)
    ensures key !in st.entries ==> r == fallback
    ensures key in st.entries && st.entries[key].Text? && Truthy(st.entries[key].v) ==> r == st.entries[key].v
    ensures r == fallback || (key in st.entries && st.entries[key] == Text(r) && Truthy(r))
  {
    match Read(st, key)
    case Some(v) => v
    case None => fallback
  }

  // ---------------------------------------------------------------------------
  // User singleton

  function SaveUser(st: Store, user: Value): Step<bool> {
    Save(st, UserKey, user)
  }

  /** None stands for the `false` getUser answers when no user is stored. */
  function GetUser(st: Store): Option<Value> {
    Read(st, UserKey)
  }

  function RemoveUser(st: Store): Step<bool> {
    Remove(st, UserKey)
  }

  // ---------------------------------------------------------------------------
  // Recipe collection

  /** The stored recipe is `data`; its key comes from `id`, never from `data.id`. */
  function SaveRecipeWithID(st: Store, data: Value, id: string): Step<bool> {
    Save(st, RecipeKey(id), data)
  }

  function GetRecipeById(st: Store, id: string): Option<Value> {
    Read(st, RecipeKey(id))
  }

  function RemoveRecipeById(st: Store, id: string): Step<bool> {
    Remove(st, RecipeKey(id))
  }

  /** The parsable recipe records of the medium, by key: what a listing should
      contain. A blank entry holds no record; an unparsable one spoils the listing. */
  function RecipeEntries(st: Store): (m: map<string, Value>)
    ensures forall k :: k in m ==> IsRecipeKey(k) && k in st.entries && st.entries[k] == Text(m[k])
    ensures forall k :: k in st.entries && IsRecipeKey(k) && st.entries[k].Text? ==> k in m
  {
    map k | k in st.entries && IsRecipeKey(k) && st.entries[k].Text? :: st.entries[k].v
  }

  /** `vs` lists the values of `m` once each, `vs[j]` being the value under `ks[j]`. */
  ghost predicate Enumerates(vs: seq<Value>, ks: seq<string>, m: map<string, Value>) {
    && |vs| == |ks|
    && Distinct(ks)
    && (forall k :: k in ks <==> k in m)
    && (forall j :: 0 <= j < |ks| ==> vs[j] == m[ks[j]])
  }

  /** The keys that start with the recipe prefix, in their original order. */
  function RecipeKeysOf(keys: seq<string>): (r: seq<string>)
    ensures forall k :: k in r <==> k in keys && IsRecipeKey(k)
    ensures Distinct(keys) ==> Distinct(r)
  {
    if keys == [] then []
    else if IsRecipeKey(keys[0]) then [keys[0]] + RecipeKeysOf(keys[1..])
    else RecipeKeysOf(keys[1..])
  }

  /** getRecipeList, given the order `keys` in which getAllKeys reports the
      medium's keys. None stands for the `false` answered when some recipe
      entry does not parse: that entry is not skipped, the whole listing fails.
      Otherwise every parsable recipe record comes back exactly once, and
      nothing else; `from` names the key each returned record came from. */
  method GetRecipeList(st: Store, keys: seq<string>) returns (r: Option<seq<Value>>, ghost from: seq<string>)
    requires ListsKeys(keys, st)
    ensures r.None? <==> exists k :: k in st.entries && IsRecipeKey(k) && st.entries[k] == Garbled
    ensures r.Some? ==> Enumerates(r.value, from, RecipeEntries(st))
  {
    var recipeKeys := RecipeKeysOf(keys);
    if |recipeKeys| == 0 {
      return Some([]), [];
    }
    var recipes := MultiGet(st, recipeKeys);
    var list: seq<Value> := [];
    from := [];
    var i := 0;
    while i < |recipes|
      invariant 0 <= i <= |recipes|
      invariant forall j :: 0 <= j < i ==> st.entries[recipeKeys[j]] != Garbled
      invariant |list| == |from|
      invariant Distinct(from)
      invariant forall k :: k in from <==> k in recipeKeys[..i] && st.entries[k].Text?
      invariant forall j :: 0 <= j < |from| ==> from[j] in st.entries && st.entries[from[j]] == Text(list[j])
    {
      match recipes[i] {
        case Some(Text(v)) =>
          list := list + [v];
          from := from + [recipeKeys[i]];
        case Some(Garbled) =>
          return None, from;
        case _ =>
      }
      i := i + 1;
    }
    assert recipeKeys[..i] == recipeKeys;
    return Some(list), from;
  }

  /** clearRecipeList, given the order `keys` in which getAllKeys reports the
      medium's keys: removes the recipe keys one after another. It answers
      false exactly when a removal throws, which here is the first one on a
      medium that refuses writes. Non-recipe keys are never touched. */
  method ClearRecipeList(st: Store, keys: seq<string>) returns (r: Step<bool>)
    requires ListsKeys(keys, st)
    ensures r.result <==> st.writable || forall k :: k in st.entries ==> !IsRecipeKey(k)
    ensures r.result ==> forall k :: k in r.store.entries <==> k in st.entries && !IsRecipeKey(k)
    ensures r.result ==> RecipeEntries(r.store) == map[]
    ensures forall k :: !IsRecipeKey(k) ==> Agree(st, r.store, k)
    ensures !r.result ==> r.store == st
    ensures r.store.writable == st.writable
  {
    var recipeKeys := RecipeKeysOf(keys);
    var cur := st;
    var i := 0;
    while i < |recipeKeys|
      invariant 0 <= i <= |recipeKeys|
      invariant cur.writable == st.writable
      invariant i > 0 ==> st.writable
      invariant forall k :: k in cur.entries <==> k in st.entries && k !in recipeKeys[..i]
      invariant forall k :: k in cur.entries ==> cur.entries[k] == st.entries[k]
    {
      match RemoveItem(cur, recipeKeys[i]) {
        case Returned(next) =>
          cur := next;
        case Threw =>
          assert recipeKeys[i] in keys && IsRecipeKey(recipeKeys[i]);
          assert cur.entries == st.entries;
          return Step(false, cur);
      }
      i := i + 1;
    }
    assert recipeKeys[..i] == recipeKeys;
    return Step(true, cur);
  }

  // ---------------------------------------------------------------------------
  // Nutrition singletons

  /** The four nutrition fields summed by AddRecipeToTodayNutri. */
  const NutriFields: set<string> := {"calo", "protein", "carb", "fat"}

  /** getTodayNutri's default: all four fields zero. */
  const ZeroNutri: Value := Obj(map["calo" := Num(0), "protein" := Num(0), "carb" := Num(0), "fat" := Num(0)])

  function SaveTodayNutri(st: Store, data: Value): Step<bool> {
    Save(st, TodayKey, data)
  }

  /** Today's totals; absence, a falsy or an unparsable entry all give the
      all-zero default, so the answer is always truthy. */
  function GetTodayNutri(st: Store): (r: Value)
    ensures Truthy(r)
    ensures TodayKey !in st.entries ==> r == ZeroNutri
    ensures TodayKey in st.entries && st.entries[TodayKey].Text? && Truthy(st.entries[TodayKey].v) ==> r == st.entries[TodayKey].v
    ensures r == ZeroNutri || (TodayKey in st.entries && st.entries[TodayKey] == Text(r))
  {
    ReadOr(st, TodayKey, ZeroNutri)
  }

  function SaveGoalNutri(st: Store, data: Value): Step<bool> {
    Save(st, GoalKey, data)
  }

  /** The goal; `factory` is the factory default target (factoryData.targetNutri),
      answered when no truthy goal is stored. */
  function GetGoalNutri(st: Store, factory: Value): (r: Value)
    ensures GoalKey !in st.entries ==> r == factory
    ensures GoalKey in st.entries && st.entries[GoalKey].Text? && Truthy(st.entries[GoalKey].v) ==> r == st.entries[GoalKey].v
    ensures r == factory || (GoalKey in st.entries && st.entries[GoalKey] == Text(r) && Truthy(r))
  {
    ReadOr(st, GoalKey, factory)
  }

  /** A truthy total saved on a writable medium is what today's read gives back. */
  lemma TodayReadsBackSaved(st: Store, total: Value)
    ensures st.writable && Truthy(total) ==> GetTodayNutri(SaveTodayNutri(st, total).store) == total
  {
  }

  /** The nutrition an addition contributes: the explicit `nutri` when it is
      truthy (the id is then not looked up), otherwise the truthy `nutri`
      property of the recipe stored under `id`; None when there is neither. */
  function Contribution(st: Store, id: string, nutri: Option<Value>): (r: Option<Value>)
    ensures nutri.Some? && Truthy(nutri.value) ==> r == nutri
    ensures r.Some? ==> Truthy(r.value)
    ensures r.Some? && r != nutri ==>
      RecipeKey(id) in st.entries && st.entries[RecipeKey(id)].Text? && Field(st.entries[RecipeKey(id)].v, "nutri") == r
    ensures r.None? ==> !(nutri.Some? && Truthy(nutri.value))
    ensures r.None? && RecipeKey(id) in st.entries && st.entries[RecipeKey(id)].Text? && Truthy(st.entries[RecipeKey(id)].v) ==>
      var f := Field(st.entries[RecipeKey(id)].v, "nutri"); f.None? || !Truthy(f.value)
  {
    if nutri.Some? && Truthy(nutri.value) then nutri
    else match GetRecipeById(st, id)
      case None => None
      case Some(recipe) =>
        match Field(recipe, "nutri")
        case Some(n) => if Truthy(n) then Some(n) else None
        case None => None
  }

  /** Today's object with each of the four fields replaced by its old value
      plus the contribution's, a missing or falsy field counting as 0; any
      other field is kept. */
  function Accumulate(today: map<string, Value>, delta: Value): (r: map<string, Value>)
    ensures r.Keys == today.Keys + NutriFields
    ensures forall f :: f in NutriFields ==> r[f] == Num(NumOr0(Obj(today), f) + NumOr0(delta, f))
    ensures forall f :: f in today && f !in NutriFields ==> r[f] == today[f]
  {
    var t := Obj(today);
    today["calo" := Num(NumOr0(t, "calo") + NumOr0(delta, "calo"))]
         ["protein" := Num(NumOr0(t, "protein") + NumOr0(delta, "protein"))]
         ["carb" := Num(NumOr0(t, "carb") + NumOr0(delta, "carb"))]
         ["fat" := Num(NumOr0(t, "fat") + NumOr0(delta, "fat"))]
  }

  /** AddRecipeToTodayNutri(id, nutri?). Without a contribution it answers
      false and writes nothing. Otherwise it reads today's totals, adds the
      contribution field by field and writes the total back; the answer of
      that write is ignored, so the call answers true even when the write
      failed. A total that is not an object does not keep the new fields:
      assignments to the fields of a primitive are ignored (the module is not
      in strict mode), and the fields an array takes are dropped when it is
      serialised, so such a total is written back unchanged. */
  function AddRecipeToTodayNutri(st: Store, id: string, nutri: Option<Value>): (r: Step<bool>)
    ensures Contribution(st, id, nutri).None? ==> r == Step(false, st)
    ensures r.result <==> Contribution(st, id, nutri).Some?
    ensures !r.result || !st.writable ==> r.store == st
    ensures r.store.writable == st.writable
    ensures forall k :: k != TodayKey ==> Agree(st, r.store, k)
    ensures r.result && st.writable && GetTodayNutri(st).Obj? ==>
      && GetTodayNutri(r.store).Obj?
      && (forall f :: f in NutriFields ==>
            Field(GetTodayNutri(r.store), f) ==
            Some(Num(NumOr0(GetTodayNutri(st), f) + NumOr0(Contribution(st, id, nutri).value, f))))
      && GetTodayNutri(r.store).fields.Keys == GetTodayNutri(st).fields.Keys + NutriFields
      && forall f :: f in GetTodayNutri(st).fields && f !in NutriFields ==>
        Field(GetTodayNutri(r.store), f) == Some(GetTodayNutri(st).fields[f])
    ensures r.result && st.writable && !GetTodayNutri(st).Obj? ==> GetTodayNutri(r.store) == GetTodayNutri(st)
  {
    match Contribution(st, id, nutri)
    case None => Step(false, st)
    case Some(delta) =>
      var today := GetTodayNutri(st);
      match today
      case Obj(fields) =>
        var total := Obj(Accumulate(fields, delta));
        TodayReadsBackSaved(st, total);
        Step(true, SaveTodayNutri(st, total).store)
      case _ =>
        TodayReadsBackSaved(st, today);
        Step(true, SaveTodayNutri(st, today).store)
  }
}
