/** The key scheme of data/storageFunc.ts: three fixed singleton keys and
    one key per recipe, `"recipe_" + id`. */
module Keys {

  const UserKey: string := "user"
  const TodayKey: string := "todayNutri"
  const GoalKey: string := "goalNutri"
  const RecipePrefix: string := "recipe_"

  /** The key a recipe id is stored under. Any id is accepted, the empty one included. */
  function RecipeKey(id: string): string {
    RecipePrefix + id
  }

  /** The key starts with the recipe prefix: the test the recipe listing and
      clearing select keys by. */
  predicate IsRecipeKey(key: string) {
    |RecipePrefix| <= |key| && key[..|RecipePrefix|] == RecipePrefix
  }

  predicate IsSingletonKey(key: string) {
    key == UserKey || key == TodayKey || key == GoalKey
  }

  /** The id a recipe key was built from. */
  function RecipeIdOf(key: string): (id: string)
    requires IsRecipeKey(key)
    ensures RecipeKey(id) == key
  {
    key[|RecipePrefix|..]
  }

  /** Every key built for a recipe passes the recipe filter, and decoding it
      gives back the id. */
  lemma RecipeKeyRoundTrip(id: string)
    ensures IsRecipeKey(RecipeKey(id))
    ensures RecipeIdOf(RecipeKey(id)) == id
  {
    assert RecipeKey(id)[..|RecipePrefix|] == RecipePrefix;
    assert RecipeKey(id)[|RecipePrefix|..] == id;
  }

  /** Distinct ids never share a key, so one recipe never overwrites another. */
  lemma RecipeKeyInjective(a: string, b: string)
    ensures RecipeKey(a) == RecipeKey(b) <==> a == b
  {
    if RecipeKey(a) == RecipeKey(b) {
      RecipeKeyRoundTrip(a);
      RecipeKeyRoundTrip(b);
    }
  }

  /** No singleton key starts with the recipe prefix, so recipe writes never
      land on the user or nutrition slots and the recipe filter never picks them up. */
  lemma SingletonsAreNotRecipeKeys(key: string)
    requires IsSingletonKey(key)
    ensures !IsRecipeKey(key)
  {
    if key == TodayKey {
      assert key[0] != RecipePrefix[0];
    } else if key == GoalKey {
      assert key[0] != RecipePrefix[0];
    } else {
      assert |key| < |RecipePrefix|;
    }
  }

  /** Hence no recipe key, whatever its id, equals a singleton key. */
  lemma RecipeKeyIsNoSingleton(id: string)
    ensures !IsSingletonKey(RecipeKey(id))
  {
    RecipeKeyRoundTrip(id);
    if IsSingletonKey(RecipeKey(id)) {
      SingletonsAreNotRecipeKeys(RecipeKey(id));
    }
  }
}
