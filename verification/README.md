# NutrinTracker local storage and list bullets, modelled in Dafny

This project models two parts of the NutrinTracker mobile app.

**The local storage layer (`data/storageFunc.ts`).** This is a namespaced key-value store over AsyncStorage. It has these slots:

- a user singleton under `"user"`;
- a recipe collection under `"recipe_" + id`;
- two nutrition singletons, `"todayNutri"` and `"goalNutri"`.

It also has an aggregation, `AddRecipeToTodayNutri`, that folds a recipe's nutrition into today's running total.

**The list-bullet labeller `bulletMark` (`assets/component.tsx`).** It gives the label drawn in front of each list item.

## Modules

- `JsResults` (`js_results.dfy`): `Option` and `Attempt`. `Attempt` is either a returned value or a thrown exception.
- `Json` (`json.dfy`): JSON values. It defines JavaScript truthiness, the property read `v.name`, and `(v.name || 0)`.
- `Medium` (`medium.dfy`): the persistent medium, `Store(entries: map<string, Blob>, writable)`. A `Blob` is one of:
  - text JSON.stringify wrote for a value (JSON.parse gives the value back);
  - the empty string;
  - text JSON.parse rejects.

  When `writable` is false, every write and removal throws. This module also holds the helpers `setItem`, `getItem`, `removeItem`, `getAllKeys` and `multiGet`.
- `Keys` (`keys.dfy`): the key scheme. It shows that recipe keys are injective in the id, decode back to the id, and never equal a singleton key.
- `StorageFunc` (`storage_func.dfy`): every exported operation.
  - Writing operations are pure functions from the medium to a `Step(result, store)`.
  - Reads return only a value, so by construction no read writes.
  - `getRecipeList` and `clearRecipeList` loop over the keys, so they are methods. Both take as a parameter the order in which `getAllKeys` reports the keys.
- `StorageLaws` (`storage_laws.dfy`): properties that relate several calls.
- `BulletMark` (`bullet_mark.dfy`): `bulletMark` over UTF-16 code units. These are the units `String.fromCharCode` produces.

## Behaviour worth knowing

- Any recipe id is accepted, `""` included, which gives the key `"recipe_"`. No id is rejected as invalid.
- An unparsable recipe entry is not skipped by the listing. `JSON.parse` throws, and the whole listing answers `false`. An empty-string entry, by contrast, is skipped.
- Failed single reads are never reported to the caller:
  - `getUser` and `getRecipeById` answer `false`;
  - `getTodayNutri` and `getGoalNutri` answer their defaults.

  A stored falsy value (`null`, `false`, `0`, `""`) reads as absent in the same way.
- Failed writes answer `false`; nothing is raised.
- `AddRecipeToTodayNutri` answers `false` when there is no nutrition to add, and `true` otherwise. It ignores the answer of its own write, so it answers `true` even when nothing was written. A stored truthy total that is not an object (a nonzero number, a nonempty string, `true`, an array) is written back unchanged. A falsy stored total reads as the all-zero object, so the contribution is written in its place.

## Model

| member | source | states |
|---|---|---|
| Medium.SetItem | data/storageFunc.ts:7-9 | setItem throws exactly when the medium refuses writes; otherwise the key holds the serialised value and every other key is as before |
| Medium.GetItem | data/storageFunc.ts:11-14 | getItem throws exactly on unparsable text; a missing key or empty text reads as null; stored text reads as the value it was written from |
| Medium.RemoveItem | data/storageFunc.ts:16-18 | removeItem throws exactly when the medium refuses writes; otherwise the key is gone and every other key is as before |
| Medium.MultiGet | data/storageFunc.ts:24-26 | multiGet gives, position by position, the stored text of each requested key, or null for a missing key |
| Keys.RecipeKeyRoundTrip | data/storageFunc.ts:80 | every key built for a recipe id passes the `startsWith('recipe_')` filter and decodes back to that id |
| Keys.RecipeKeyInjective | data/storageFunc.ts:115 | two ids share a recipe key exactly when they are equal |
| Keys.SingletonsAreNotRecipeKeys | data/storageFunc.ts:92 | none of "user", "todayNutri", "goalNutri" starts with "recipe_", so the recipe filter never selects a singleton slot |
| Keys.RecipeKeyIsNoSingleton | data/storageFunc.ts:80 | no recipe key, whatever the id, equals a singleton key, so recipe writes never collide with the singleton slots |
| StorageFunc.Save | data/storageFunc.ts:34-43 | a save answers true exactly when the write went through; the key then holds the value; a failed save changes nothing; no other key changes |
| StorageFunc.Remove | data/storageFunc.ts:66-74 | a removal answers true exactly when it went through; the key is then absent; a failed removal changes nothing; no other key changes |
| StorageFunc.Read | data/storageFunc.ts:50-58 | a read finds a value exactly when parsable, truthy text is stored under the key, and then finds that value; otherwise it answers false |
| StorageFunc.ReadOr | data/storageFunc.ts:168-174 | a defaulting read answers the stored value when parsable, truthy text is stored under the key, and the default otherwise (missing key, falsy value, unparsable text) |
| StorageFunc.RecipeKeysOf | data/storageFunc.ts:92 | the recipe-key filter keeps exactly the keys starting with "recipe_" and introduces no duplicates |
| StorageFunc.GetRecipeList | data/storageFunc.ts:89-111 | the listing fails exactly when some recipe entry is unparsable; otherwise it returns every parsable recipe record exactly once and nothing else (so [] when there is none, never a singleton record) |
| StorageFunc.ClearRecipeList | data/storageFunc.ts:133-147 | clearing answers true exactly when no removal throws; it then leaves no recipe key (an empty listing) and every other key present with its value; on failure nothing has changed |
| StorageFunc.GetTodayNutri | data/storageFunc.ts:160-175 | today's totals are always truthy; they are the stored total when a truthy parsable one is stored, and all zero otherwise |
| StorageFunc.GetGoalNutri | data/storageFunc.ts:219-229 | the goal is the stored goal when a truthy parsable one is stored, and the factory default otherwise |
| StorageFunc.Contribution | data/storageFunc.ts:179-189 | the contribution is a truthy explicit nutri when given (the id is then ignored); otherwise it is the truthy `nutri` property of the stored recipe; it is missing when the recipe is absent or has no truthy `nutri` |
| StorageFunc.Accumulate | data/storageFunc.ts:195-198 | each of calo, protein, carb, fat becomes old plus added, a missing field counting as 0; every other field of today's object is kept |
| StorageFunc.AddRecipeToTodayNutri | data/storageFunc.ts:177-206 | without a contribution it answers false and writes nothing; it answers true exactly when there is a contribution, whether or not the write went through; only today's slot can change; on a writable medium an object total gains the four fields, each grown by the contribution, and keeps its other fields, and any other total is written back unchanged |
| StorageLaws.UserRoundTrip | data/storageFunc.ts:34-58 | getUser after saveUser answers the saved user, or false for a falsy user; a failed save changes nothing |
| StorageLaws.RemoveUserIdempotent | data/storageFunc.ts:66-74 | after removeUser getUser answers false, and removing twice equals removing once |
| StorageLaws.RecipeRoundTrip | data/storageFunc.ts:78-121 | getRecipeById after saveRecipeWithID with the same id answers the saved record, or false for a falsy record |
| StorageLaws.RecipeLastWriteWins | data/storageFunc.ts:78-87 | saving twice under one id equals saving the second record alone |
| StorageLaws.SaveRecipeTouchesOnlyItsKey | data/storageFunc.ts:78-87 | saving a recipe leaves every other recipe, the user, today's totals and the goal as they read before |
| StorageLaws.RemoveRecipeIdempotent | data/storageFunc.ts:123-131 | after removeRecipeById the recipe reads as false, and removing twice equals removing once |
| StorageLaws.SaveRecipeListed | data/storageFunc.ts:89-111 | saving a recipe adds exactly that record under its key to what the listing returns, replacing any previous record for the id |
| StorageLaws.ListingExcludesSingletons | data/storageFunc.ts:92 | the listing's records never come from the user or nutrition slots |
| StorageLaws.SingletonWritesKeepListing | data/storageFunc.ts:149-158 | writing or removing a singleton slot leaves the recipe listing unchanged |
| StorageLaws.ListAfterThreeSaves | data/storageFunc.ts:78-111 | after saving recipes "a", "b", "c" in an empty medium the listing holds exactly those three records |
| StorageLaws.TodayRoundTrip | data/storageFunc.ts:149-175 | getTodayNutri after saveTodayNutri answers the saved total, or all zero for a falsy one; a failed save changes nothing |
| StorageLaws.GoalRoundTrip | data/storageFunc.ts:208-229 | getGoalNutri after saveGoalNutri answers the saved goal, or the factory default for a falsy one; a failed save changes nothing |
| StorageLaws.FreshDefaults | data/storageFunc.ts:160-229 | in an empty medium today reads as all zero and the goal as the factory default |
| StorageLaws.ExplicitNutriIgnoresId | data/storageFunc.ts:180-181 | with a truthy explicit nutri the outcome of an addition does not depend on the id |
| StorageLaws.AddReportsSuccessWithoutWriting | data/storageFunc.ts:200-201 | on a medium that refuses writes an addition with a contribution still answers true and writes nothing |
| StorageLaws.AddToFreshDay | data/storageFunc.ts:190-200 | adding to a day with no stored total makes each of the four totals equal the contribution |
| StorageLaws.AddTwiceAccumulates | data/storageFunc.ts:177-206 | adding the same stored recipe twice adds its nutrition twice; totals accumulate instead of being overwritten |
| BulletMark.NormalisePreimage | assets/component.tsx:74 | position 0 comes from index 0 only; a positive position n comes from index 2n, and also from index n when n is odd |
| BulletMark.OddAndDoubleShareLabel | assets/component.tsx:74 | an odd index and its double get the same label in every style |
| BulletMark.DecimalRoundTrip | assets/component.tsx:128 | the numeral of n is nonempty, all digits, has no leading zero unless n is 0, and reads back as n |
| BulletMark.NumericLabel | assets/component.tsx:127-128 | style "1" gives the decimal numeral of position + 1 followed by "." |
| BulletMark.LowerAlphabeticLabel | assets/component.tsx:75-85 | style "a" gives code 97 + i and "." for position i < 26, and otherwise code 97 + i/26 - 1 (taken modulo 2^16), code 97 + i%26 and "." |
| BulletMark.UpperAlphabeticLabel | assets/component.tsx:87-97 | style "A" is style "a" with base code 65 |
| BulletMark.AlphabeticRoundTrip | assets/component.tsx:76-96 | up to position 701 ("zz.") every alphabetic label uses letters of its alphabet only and reads back as its position, so labels there are distinct |
| BulletMark.RomanHasNoLabel | assets/component.tsx:99-125 | style "I" produces no label (undefined), as its helper has no return statement |
| BulletMark.OtherStylesEcho | assets/component.tsx:130-131 | any style other than "a", "A", "I", "1" is returned unchanged as the label |

## Left out

- Asynchrony and interleaving are not modelled. Operations run one after another, so the lost-update race in the read-add-write of `AddRecipeToTodayNutri` is not modelled.
- `Alert.alert` and `console.log` in the catch blocks are not modelled. They are user interface and logging only.
- AsyncStorage's own implementation is not modelled. The text codec is not modelled either: JSON.parse is assumed to give back what JSON.stringify was given. The only read failure modelled is unparsable stored text.
- Write failures are a single `writable` flag on the whole medium, not per-key faults. So a `clearRecipeList` that fails partway through (leaving some recipe keys removed) cannot arise in the model.
- JavaScript numbers are integers here. NaN, floating point and `undefined` (JSON.stringify of `undefined`) are not modelled.
- StorageFunc.AddRecipeToTodayNutri: assumes the module does not run in strict mode, as React Native's Babel preset compiles it. A stored primitive total then ignores the field assignments and is written back unchanged. In strict mode those assignments would throw, and the call would answer false and write nothing.
- StorageFunc.Accumulate: `(x || 0)` on a truthy field that is not a number counts as 0 in the model. JavaScript would concatenate or coerce such a field instead.
- Property reads only see an object's own keys. Built-in properties such as a string's `length` are not modelled; the names read here (`nutri`, `calo`, `protein`, `carb`, `fat`) are not built-in properties.
- The record shapes of `data/interfaceFormat.ts` are not checked at run time, so records are arbitrary JSON values. That file is not part of this model.
- `factoryData.targetNutri` comes from `data/factoryData.ts`, which is not part of this model. It enters `GetGoalNutri` as the parameter `factory`.
- The order of `getAllKeys` is not specified by the medium. It enters the listing and clearing methods as a parameter: any sequence listing each stored key once.
- BulletMark.Decimal: the exponent notation JavaScript uses for numbers of 10^21 and above is not modelled. List indices are array indices below 2^32, far below that.
- `Ibullet`'s unfinished roman-numeral table is not modelled, because the helper never returns anything.
- The rest of `assets/component.tsx` is not modelled:
  - Firebase login and registration handlers (network and a foreign SDK);
  - `formatNumber` (floating point and `Intl`);
  - `onShare`, `onRefresh`, `statusBarTransparency`, `marginBottomForScrollView`;
  - the JSX of `ListGen`.

  All of these are user interface or foreign-library code.
- Storage keys and ids are Dafny strings (sequences of Unicode scalar values), while bullet labels are UTF-16 code units. So a key holding a lone surrogate cannot be written in the storage model. This changes no behaviour: keys are only compared, concatenated with the ASCII prefix `"recipe_"` and tested against it.
- `index.js` is app bootstrap and Firebase configuration only.
