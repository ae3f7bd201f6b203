/** Properties relating several calls of the storage operations: round trips,
    idempotent removal, last write wins, the independence of the recipe
    collection from the singleton slots, and additive aggregation. */
module StorageLaws {
  import opened JsResults
  import opened Json
  import opened Medium
  import opened Keys
  import opened StorageFunc

  // ---------------------------------------------------------------------------
  // User singleton

  /** getUser after saveUser answers the saved user, unless the write failed
      (nothing changes) or the user is falsy (it then reads as absent). */
  lemma UserRoundTrip(st: Store, user: Value)
    ensures GetUser(SaveUser(st, user).store) ==
      if !st.writable then GetUser(st) else if Truthy(user) then Some(user) else None
  {
  }

  /** After a successful removeUser no user is found, and a second removeUser
      answers and leaves the same as the first. */
  lemma RemoveUserIdempotent(st: Store)
    ensures st.writable ==> GetUser(RemoveUser(st).store) == None
    ensures RemoveUser(RemoveUser(st).store) == RemoveUser(st)
  {
    var once := RemoveUser(st).store;
    if st.writable {
      assert once.entries - {UserKey} == once.entries;
    }
  }

  // ---------------------------------------------------------------------------
  // Recipe collection

  /** getRecipeById after saveRecipeWithID under the same id answers the saved
      record (a falsy record reads as absent; a failed write changes nothing). */
  lemma RecipeRoundTrip(st: Store, data: Value, id: string)
    ensures GetRecipeById(SaveRecipeWithID(st, data, id).store, id) ==
      if !st.writable then GetRecipeById(st, id) else if Truthy(data) then Some(data) else None
  {
  }

  /** Saving twice under one id is the same as saving the second record only. */
  lemma RecipeLastWriteWins(st: Store, first: Value, second: Value, id: string)
    ensures SaveRecipeWithID(SaveRecipeWithID(st, first, id).store, second, id) == SaveRecipeWithID(st, second, id)
  {
    if st.writable {
      assert st.entries[RecipeKey(id) := Text(first)][RecipeKey(id) := Text(second)]
          == st.entries[RecipeKey(id) := Text(second)];
    }
  }

  /** Saving a recipe changes no other recipe and none of the singleton slots. */
  lemma SaveRecipeTouchesOnlyItsKey(st: Store, data: Value, id: string, other: string, factory: Value)
    requires other != id
    ensures var st' := SaveRecipeWithID(st, data, id).store;
      && GetRecipeById(st', other) == GetRecipeById(st, other)
      && GetUser(st') == GetUser(st)
      && GetTodayNutri(st') == GetTodayNutri(st)
      && GetGoalNutri(st', factory) == GetGoalNutri(st, factory)
  {
    RecipeKeyInjective(id, other);
    RecipeKeyIsNoSingleton(id);
  }

  /** After a successful removeRecipeById the recipe is not found, and removing
      twice is removing once. */
  lemma RemoveRecipeIdempotent(st: Store, id: string)
    ensures st.writable ==> GetRecipeById(RemoveRecipeById(st, id).store, id) == None
    ensures RemoveRecipeById(RemoveRecipeById(st, id).store, id) == RemoveRecipeById(st, id)
  {
    var once := RemoveRecipeById(st, id).store;
    if st.writable {
      assert once.entries - {RecipeKey(id)} == once.entries;
    }
  }

  /** Saving a recipe adds it to what a listing returns, replacing any record
      held under the same id, falsy records included. */
  lemma SaveRecipeListed(st: Store, data: Value, id: string)
    requires st.writable
    ensures RecipeEntries(SaveRecipeWithID(st, data, id).store) == RecipeEntries(st)[RecipeKey(id) := data]
  {
    RecipeKeyRoundTrip(id);
    var st' := SaveRecipeWithID(st, data, id).store;
    forall k | k in RecipeEntries(st)[RecipeKey(id) := data]
      ensures k in RecipeEntries(st')
    {
    }
  }

  /** A listing never contains the user or nutrition records. */
  lemma ListingExcludesSingletons(st: Store, key: string)
    requires IsSingletonKey(key)
    ensures key !in RecipeEntries(st)
  {
    SingletonsAreNotRecipeKeys(key);
  }

  /** Writing or removing a singleton slot leaves the listing as it was. */
  lemma SingletonWritesKeepListing(st: Store, key: string, v: Value)
    requires IsSingletonKey(key)
    ensures RecipeEntries(Save(st, key, v).store) == RecipeEntries(st)
    ensures RecipeEntries(Remove(st, key).store) == RecipeEntries(st)
  {
    SingletonsAreNotRecipeKeys(key);
    var saved := Save(st, key, v).store;
    var removed := Remove(st, key).store;
    assert RecipeEntries(saved).Keys == RecipeEntries(st).Keys;
    assert RecipeEntries(removed).Keys == RecipeEntries(st).Keys;
  }

  /** Saving recipes "a", "b" and "c" in an empty medium lists exactly those three. */
  lemma ListAfterThreeSaves(a: Value, b: Value, c: Value)
    ensures var blank := Store(map[], true);
      var s1 := SaveRecipeWithID(blank, a, "a").store;
      var s2 := SaveRecipeWithID(s1, b, "b").store;
      var s3 := SaveRecipeWithID(s2, c, "c").store;
      RecipeEntries(s3) == map[RecipeKey("a") := a, RecipeKey("b") := b, RecipeKey("c") := c]
  {
    var blank := Store(map[], true);
    var s1 := SaveRecipeWithID(blank, a, "a").store;
    var s2 := SaveRecipeWithID(s1, b, "b").store;
    assert RecipeEntries(blank) == map[];
    SaveRecipeListed(blank, a, "a");
    SaveRecipeListed(s1, b, "b");
    SaveRecipeListed(s2, c, "c");
  }

  // ---------------------------------------------------------------------------
  // Nutrition singletons

  /** getTodayNutri after saveTodayNutri answers the saved total, or the zero
      default for a falsy one; a failed save changes nothing. */
  lemma TodayRoundTrip(st: Store, today: Value)
    ensures GetTodayNutri(SaveTodayNutri(st, today).store) ==
      if !st.writable then GetTodayNutri(st) else if Truthy(today) then today else ZeroNutri
  {
  }

  /** getGoalNutri after saveGoalNutri answers the saved goal, or the factory
      default for a falsy one; a failed save changes nothing. */
  lemma GoalRoundTrip(st: Store, goal: Value, factory: Value)
    ensures GetGoalNutri(SaveGoalNutri(st, goal).store, factory) ==
      if !st.writable then GetGoalNutri(st, factory) else if Truthy(goal) then goal else factory
  {
  }

  /** A blank medium reads today as all zero and the goal as the factory default. */
  lemma FreshDefaults(writable: bool, factory: Value)
    ensures GetTodayNutri(Store(map[], writable)) == ZeroNutri
    ensures GetGoalNutri(Store(map[], writable), factory) == factory
    ensures forall f :: f in NutriFields ==> NumOr0(GetTodayNutri(Store(map[], writable)), f) == 0
  {
  }

  /** A truthy explicit `nutri` makes the id irrelevant. */
  lemma ExplicitNutriIgnoresId(st: Store, id1: string, id2: string, nutri: Value)
    requires Truthy(nutri)
    ensures AddRecipeToTodayNutri(st, id1, Some(nutri)) == AddRecipeToTodayNutri(st, id2, Some(nutri))
  {
  }

  /** On a medium that refuses writes an addition still answers true once it
      has a contribution, though nothing was written. */
  lemma AddReportsSuccessWithoutWriting(st: Store, id: string, nutri: Option<Value>)
    requires !st.writable
    requires Contribution(st, id, nutri).Some?
    ensures AddRecipeToTodayNutri(st, id, nutri) == Step(true, st)
  {
  }

  /** Adding a recipe on a day with no stored total makes the total equal the
      recipe's nutrition, field by field. */
  lemma AddToFreshDay(st: Store, id: string, nutri: Option<Value>)
    requires st.writable && TodayKey !in st.entries
    requires Contribution(st, id, nutri).Some?
    ensures var r := AddRecipeToTodayNutri(st, id, nutri);
      && r.result
      && forall f :: f in NutriFields ==>
        NumOr0(GetTodayNutri(r.store), f) == NumOr0(Contribution(st, id, nutri).value, f)
  {
    assert GetTodayNutri(st) == ZeroNutri;
  }

  /** Adding the same stored recipe twice adds its nutrition twice: the total
      accumulates rather than being overwritten, and the recipe, kept under a
      key distinct from today's, contributes the same both times. */
  lemma {:induction false} AddTwiceAccumulates(st: Store, id: string)
    requires st.writable
    requires Contribution(st, id, None).Some?
    requires GetTodayNutri(st).Obj?
    ensures var s1 := AddRecipeToTodayNutri(st, id, None).store;
      var s2 := AddRecipeToTodayNutri(s1, id, None).store;
      forall f :: f in NutriFields ==>
        NumOr0(GetTodayNutri(s2), f) == NumOr0(GetTodayNutri(st), f) + 2 * NumOr0(Contribution(st, id, None).value, f)
  {
    var s1 := AddRecipeToTodayNutri(st, id, None).store;
    RecipeKeyIsNoSingleton(id);
    assert Agree(st, s1, RecipeKey(id));
    assert GetRecipeById(s1, id) == GetRecipeById(st, id);
    assert Contribution(s1, id, None) == Contribution(st, id, None);
  }
}
