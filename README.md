# Store ratings: users, stores and ratings

This project models the three persistence models of a store-rating web
application. A **user** has a name, email, address, password, role and an
active flag. A **store** belongs to one proprietor user and caches its
average rating. A **store rating** links a user to a store with a value from
1 to 5.

The model covers:

- the validations each model runs before it is saved, including the shared
  name rule that users and stores include, the user's password-strength rule,
  the rule that a proprietor owns at most one store, and the rule that a
  store's proprietor may not rate their own store;
- the scopes: `by_role`, `active_users`, `highly_rated`, `recent`, `by_value`;
- `initialize_role` and `rating_statistics`;
- the callback that refreshes a store's cached average after a rating is
  saved or destroyed.

Modules, one per file:

- `Basics` (basics.dfy): optional values, record ids, validation errors and
  the framework's default messages.
- `Text` (text.dfy): character classes, `blank?`, ASCII case folding, and the
  split of a string into lines. The split matters because in Ruby `^` and `$`
  match at every line feed, so a pattern of the form `/^…$/` only needs to
  match one line of the value.
- `NameRule` (name_rule.dfy): `name_format_validation`.
- `FieldRules` (field_rules.dfy): the presence, maximum-length and
  case-insensitive-uniqueness validators on `email` and `address`.
- `Users` (users.dfy): the `User` record, its validations, `initialize_role`,
  and the role and activity scopes.
- `Ratings` (ratings.dfy): rating validations, the `store_ratings` table as a
  sequence in creation order, means, and the rating scopes.
- `Stores` (stores.dfy): store validations, the proprietor rule, the
  average-rating callback, `rating_statistics` and `highly_rated`.
- `Database` (database.dfy): the class `Db`, which holds the three tables.
  Its save and destroy operations validate, write, and run the callback.
  Updating a rating runs the corrected callback, which also refreshes the
  store the rating left (see "## Findings"). The source's callback does not,
  so the source's tables do not keep every cached average current when a
  rating changes store. The invariant of `Db` states four things:
  - references hold;
  - each proprietor has at most one store;
  - each (user, store) pair is rated at most once;
  - every cached average equals the mean of the store's ratings.

Every validator returns the list of errors it adds, in declaration order. A
record is saved exactly when that list is empty.

## Model

| member | source | states |
|---|---|---|
| NameRule.NameErrors | unique-rails-models.rb:10-21 | A blank name gets no errors. Otherwise the length error is present iff the name has fewer than 20 or more than 60 characters, and the format error iff no line of the name has both an ASCII letter and a digit. The name passes iff it is blank, or both checks pass. All errors are on `name`, at most two. |
| NameRule.NameAcceptedSingleLine | unique-rails-models.rb:13-20 | A one-line, non-blank name passes iff it has 20 to 60 characters, an ASCII letter and a digit. |
| NameRule.BothNameErrors | unique-rails-models.rb:13-20 | The two checks are independent: "shop" gets the length error and then the format error. |
| NameRule.FormatCheckIsPerLine | unique-rails-models.rb:18 | Because `^`/`$` are line anchors, a two-line name passes the format check when its second line has a letter and a digit. |
| Text.JoinLines | unique-rails-models.rb:18 | Splitting a value at line feeds loses nothing: joining the lines with line feeds gives the value back. |
| Text.LinesJoin | unique-rails-models.rb:18 | Line feeds exactly separate the lines: splitting the join of feed-free lines gives those lines back. |
| Text.SingleLine | unique-rails-models.rb:67 | A value without a line feed is a single line, so the anchored patterns then test the whole value. |
| Text.Downcase | unique-rails-models.rb:46 | Case folding keeps the length, lowers each ASCII capital, and leaves every other character unchanged. |
| Text.DowncaseIdempotent | unique-rails-models.rb:46 | Folding twice is folding once. |
| FieldRules.PresenceErrors | unique-rails-models.rb:45 | `presence: true` adds "can't be blank" iff the value is nil or blank, and nothing otherwise. |
| FieldRules.MaxLengthErrors | unique-rails-models.rb:49 | `length: { maximum: 400 }` adds the too-long error iff a present value has more than 400 characters; nil passes. |
| FieldRules.EmailErrors | unique-rails-models.rb:45-47 | The blank error iff the email is blank. The taken error iff another row's email is equal after case folding (nil equals only nil). The invalid error iff the format rejects the email's `to_s`. No errors iff all three pass. |
| Text.DowncaseEqual | unique-rails-models.rb:46 | Two strings fold to the same string iff they have the same length and, at each position, the same character or the same ASCII letter in the other case. |
| FieldRules.EmailKeyEqual | unique-rails-models.rb:46 | Two emails collide under `case_sensitive: false` iff both are nil, or both are present and differ at most in the case of ASCII letters. |
| FieldRules.EmailUniquenessIgnoresCase | unique-rails-models.rb:46 | `A@X.com` is refused as taken when `a@x.com` exists. |
| Users.PasswordErrors | unique-rails-models.rb:64-70 | No error iff the password is blank, or some line of it satisfies the strength pattern as Ruby compiles it. In that pattern `#$&` interpolates the nil global `$&`, so the special class is `[!@*]`. Otherwise exactly the one password error. |
| Users.PasswordAcceptedSingleLine | unique-rails-models.rb:67 | A one-line password passes iff it is blank, or has 8 to 16 characters with an uppercase letter, a lowercase letter, a digit and one of `!`, `@`, `*`. |
| Users.IntendedPasswordErrors | unique-rails-models.rb:67-68 | The rule as the class and the message spell it: no error iff the password is blank or some line satisfies the pattern with the class `[!@#$&*]`; otherwise exactly the one password error. |
| Users.IntendedPasswordAcceptedSingleLine | unique-rails-models.rb:67 | Under the intended rule, a one-line password passes iff it is blank, or has 8 to 16 characters with an uppercase letter, a lowercase letter, a digit and one of `!@#$&*`. |
| Users.CompiledRuleIsStricter | unique-rails-models.rb:67 | Every password the rule as run accepts, the intended rule accepts too. |
| Users.InterpolatedSpecialRefused | unique-rails-models.rb:67 | `Abcdef1#` gets the password error as the source runs, and passes the intended rule. |
| Users.StrongPasswordExample | unique-rails-models.rb:67 | `Abcdef1!` passes. |
| Users.WeakPasswordExample | unique-rails-models.rb:67-68 | `abcdefgh` gets the password error. |
| Users.UserAddressErrors | unique-rails-models.rb:48-50 | Each of the blank, too-long and invalid-characters errors is present iff its condition holds. The address passes iff it is present, not blank, at most 400 characters, and made only of word characters, whitespace, `,`, `.` and `-`. |
| Users.InitialRole | unique-rails-models.rb:58-60 | A missing role becomes "regular"; a present role is kept. |
| Users.User.InitializeRole | unique-rails-models.rb:58-60 | Only `role` changes, and it becomes the initial role of the old one. |
| Users.User.ValidationErrors | unique-rails-models.rb:44-51 | A user has no errors iff the name rule, the email rules against the other users' emails, the address rules and the password rule all pass. Errors are only on name, email, address or password. |
| Users.ByRole | unique-rails-models.rb:54 | `by_role` returns exactly the users whose role equals the argument: every result has the role, and every user with the role is in the result. |
| Users.ActiveUsers | unique-rails-models.rb:55 | `active_users` returns exactly the users whose `active` flag is set. |
| Users.ByRoleConcat | unique-rails-models.rb:54 | `by_role` over two consecutive parts of the table is `by_role` over the first part followed by `by_role` over the second. Together with the membership clauses on one-row tables, this gives each matching user once, in table order. |
| Users.ActiveUsersConcat | unique-rails-models.rb:55 | `active_users` over two consecutive parts of the table is `active_users` over each part, in order. So each active user appears once, in table order. |
| Ratings.ValueErrors | unique-rails-models.rb:119-120 | A nil value gets the blank error and the range error. An integer outside 1..5 gets the range error. The value passes iff it is an integer in 1..5. |
| Ratings.RatingErrors | unique-rails-models.rb:115-141 | The must-exist error iff the user is not saved. The already-rated error iff another row pairs the same user and store. The self-rating error iff the rater is the store's proprietor. The rating passes iff the user exists, the value is in 1..5, the pair is free and the rater is not the proprietor. |
| Ratings.SaveKeepsUniquePairs | unique-rails-models.rb:121-124 | Inserting or updating a row that passed the uniqueness check keeps every (user, store) pair unique. |
| Ratings.DeleteKeepsUniquePairs | unique-rails-models.rb:121-124 | Destroying a row keeps the pairs unique. |
| Ratings.RatingsFor | unique-rails-models.rb:79 | `store.store_ratings` holds exactly the rows of that store. |
| Ratings.RatingsForConcat | unique-rails-models.rb:79 | A store's rows in two consecutive parts of the table are its rows in the first part, then those in the second. |
| Ratings.Mean | unique-rails-models.rb:144 | `average(:value)` is nil iff there are no rows. |
| Ratings.AppendKeepsOtherAverage | unique-rails-models.rb:143-145 | A new row of another store leaves a store's average unchanged. |
| Ratings.DeleteKeepsOtherAverage | unique-rails-models.rb:143-145 | Destroying a row of another store leaves a store's average unchanged. |
| Ratings.ReplaceKeepsOtherAverage | unique-rails-models.rb:143-145 | Rewriting a row that was not, and does not become, one of the store's rows leaves its average unchanged. |
| Ratings.NewestFirst | unique-rails-models.rb:132 | `recent.limit(n)` has min(n, rows) rows; its i-th row is the i-th newest. |
| Ratings.ByValue | unique-rails-models.rb:133 | `by_value(v)` holds exactly the rows with value v, as many as v occurs. |
| Stores.StoreAddressErrors | unique-rails-models.rb:86-87 | A store address passes iff it is present, not blank and at most 400 characters. Errors are only on address. |
| Stores.ProprietorErrors | unique-rails-models.rb:105-109 | No error iff every store the proprietor owns is the one being saved; otherwise exactly "already owns a different store". |
| Stores.RevalidateOwnStore | unique-rails-models.rb:105-109 | While each proprietor has at most one store, re-saving a store with its own proprietor passes the rule. |
| Stores.SecondStoreRefused | unique-rails-models.rb:105-109 | A proprietor who owns a store gets the error when they are given any other store. |
| Stores.SaveKeepsOneStorePerProprietor | unique-rails-models.rb:105-109 | Saving a store that passed the rule keeps at most one store per proprietor. |
| Stores.StoreErrors | unique-rails-models.rb:75-88 | A store has no errors iff the name rule, the email rules against the other stores' emails, the address rules and the proprietor rule all pass. |
| Stores.RefreshAverage | unique-rails-models.rb:143-145 | The callback sets the store's cached average to the mean of its rows. No other attribute or store changes. |
| Stores.RefreshRestoresAverages | unique-rails-models.rb:143-145 | When only one store's average can be stale, refreshing it makes every cached average current. |
| Stores.AfterUpdateAsWritten | unique-rails-models.rb:128 | After a rating is updated, the callback as written refreshes only the store the row now belongs to. |
| Stores.MovedRatingLeavesStaleAverage | unique-rails-models.rb:128 | Moving a rating of 5 from store 0 to store 1 leaves store 0's cached average at 5 although store 0 has no ratings left. |
| Stores.AfterUpdate | unique-rails-models.rb:128 | The corrected callback after an update refreshes both the store the row left and the store it joined, and changes nothing else. |
| Stores.UpdateKeepsAveragesCurrent | unique-rails-models.rb:128 | Updating a row with the corrected callback keeps every cached average current. |
| Stores.CreateKeepsAveragesCurrent | unique-rails-models.rb:128 | Creating a row and refreshing its store keeps every cached average current. |
| Stores.DeleteKeepsAveragesCurrent | unique-rails-models.rb:129 | Destroying a row and refreshing its store keeps every cached average current. |
| Stores.AverageScenario | unique-rails-models.rb:119-145 | Two distinct users, neither the proprietor, rate a store without ratings with 3 and 5. Both ratings pass validation. After each save and callback, the cached average is 4.0. After the 5 is destroyed and the callback runs, it is 3.0. |
| Stores.Distribution | unique-rails-models.rb:98 | `group(:value).count` has a key for exactly the values that occur, each mapped to its positive number of occurrences. |
| Stores.RatingStatistics | unique-rails-models.rb:94-101 | `total_ratings` is the store's row count. `average` is 0 without rows, otherwise the mean (average × total = sum). The distribution has a key for exactly the values that occur, each mapped to its positive count. `recent_ratings` holds min(5, total) rows, newest first. |
| Stores.DistributionSumsToTotal | unique-rails-models.rb:97-98 | With values in 1..5, the distribution's counts for 1..5 add up to `total_ratings`. |
| Stores.HighlyRatedTest | unique-rails-models.rb:91 | The integer test "has rows and sum ≥ 4 × count" holds iff the store's average exists and is at least 4.0. |
| Stores.HighlyRated | unique-rails-models.rb:91 | `highly_rated` holds exactly the saved stores that have ratings averaging at least 4.0. |
| Database.CreateRatingKeepsConsistent | unique-rails-models.rb:118-128 | Inserting a rating that passed validation, then refreshing its store, keeps the table invariant. |
| Database.UpdateRatingKeepsConsistent | unique-rails-models.rb:118-128 | Rewriting a row with a rating that passed validation, then refreshing both affected stores, keeps the table invariant. |
| Database.DestroyRatingKeepsConsistent | unique-rails-models.rb:129 | Destroying a row, then refreshing its store, keeps the table invariant. |
| Database.SaveStoreKeepsConsistent | unique-rails-models.rb:105-109 | Saving a store that passed the proprietor rule keeps the table invariant. A new store starts with no average and no ratings. |
| Database.CreateKeepsNoSelfRatings | unique-rails-models.rb:137-141 | A new rating that passed the self-rating check keeps the ratings free of self-ratings. |
| Database.UpdateKeepsNoSelfRatings | unique-rails-models.rb:137-141 | An updated rating that passed the self-rating check keeps the ratings free of self-ratings. |
| Database.DestroyKeepsNoSelfRatings | unique-rails-models.rb:129 | Destroying a rating keeps the ratings free of self-ratings. |
| Database.Db.CreateUser | unique-rails-models.rb:44-51 | Saving a new user returns exactly its validation errors. On success the user is inserted under a fresh id with its email; on error nothing changes. The invariant holds. |
| Database.Db.SaveStore | unique-rails-models.rb:82-109 | Saving a store returns exactly its validation errors. On success a new store gets a fresh id and no average, and an existing store keeps its average. On error nothing changes. The invariant holds. |
| Database.Db.CreateRating | unique-rails-models.rb:118-145 | Creating a rating returns exactly its validation errors. On success the row is appended and its store's average refreshed; on error nothing changes. The invariant holds, and no self-rating appears. |
| Database.Db.UpdateRating | unique-rails-models.rb:118-145 | Saving row k with new attributes returns its validation errors, excluding row k from the uniqueness check. On error nothing changes. On success the row is rewritten and the corrected callback `Stores.AfterUpdate` runs, refreshing both the store the row left and the store it joined. The source refreshes only the latter (see "## Findings"). The invariant holds. |
| Database.Db.DestroyRating | unique-rails-models.rb:129 | Destroying row k removes exactly that row and refreshes its store's average. The invariant holds. |

## Left out

- The library's email pattern is a parameter `emailFormat` of the email rules; the model does not fix its language.
- `has_secure_token :auth_token` is not modelled: token generation is randomness.
- `search_by_name` and `search_by_location` (`ILIKE` substring search) are not modelled. They depend on the database's collation and case folding.
- Case-insensitive uniqueness folds ASCII letters only. The database's folding of other letters is not modelled.
- Stores.RatingStatistics: `average` is the exact mean, not `to_f.round(2)`. The floating-point conversion and the two-decimal rounding are not modelled.
- Ratings.Mean: the cached average is an exact rational, not the database's decimal column with its precision.
- The `roles` hash is only used for the default role. No rule restricts `role` to its three values, and the model adds none.
- A missing rating store, or a missing store proprietor, is a caller requirement of `Db.CreateRating`, `Db.UpdateRating` and `Db.SaveStore`, not an error result. The source dereferences them (`store.proprietor_id`, `proprietor.owned_store`) and would raise instead of adding the "must exist" error.
- `created_at` is modelled as the order of the ratings table; timestamps and ties are not modelled.
- Destroying users and stores (`dependent: :destroy` cascades) and the `through:` associations `rated_stores` and `rating_users` are not modelled.
- `update_column` is modelled as a direct write of the cached average. Its skipped validations and timestamps are not modelled.
- Concurrent saves, and a race between a rating write and the average refresh, are not modelled: every operation is atomic.
- The self-rating rule is checked only when a rating is saved. Reassigning a store to a user who already rated it is allowed, so "no self-ratings" is not part of `Db`'s invariant. The rating operations preserve it.
- Database.Db.SaveStore: a new store starts with no cached average, and callers cannot write `average_rating`. The source states neither: the column's default lies in the schema, which is not part of this model, and `Store#save` would persist any value a caller had assigned. The invariant that every cached average is current rests on both.
- Users.ByRole, Users.ActiveUsers: these scopes are modelled over an in-memory sequence of user records, not as queries.

## Findings

| source | as written | input that shows it | evidently intended | confidence | as-written member | corrected member |
|---|---|---|---|---|---|---|
| unique-rails-models.rb:128 | After a rating is updated, `update_store_average_rating` refreshes only `store`, the store the row now belongs to. | Store 0 has one rating of 5, cached average 5.0. That rating is updated to belong to store 1. Store 0 has no ratings left but still caches 5.0. | Every cached average equals the mean of that store's current ratings, so the store a rating left is refreshed as well. | medium, not executed | Stores.AfterUpdateAsWritten (shown by Stores.MovedRatingLeavesStaleAverage) | Stores.AfterUpdate (proved by Stores.UpdateKeepsAveragesCurrent; used by Database.Db.UpdateRating) |
| unique-rails-models.rb:67 | In the regular-expression literal, `#$&` interpolates the last-match global `$&`. It is nil in `password_strength`, so the special class compiles to `[!@*]`. | `Abcdef1#` (also `Abcdef1$` and `Abcdef1&`) gets the password error. | The class `[!@#$&*]` as written, which the error message's "1 special character" also suggests. | medium, not executed | Users.PasswordErrors (shown by Users.InterpolatedSpecialRefused) | Users.IntendedPasswordErrors (proved by Users.IntendedPasswordAcceptedSingleLine and Users.CompiledRuleIsStricter) |


`Users.User.ValidationErrors` keeps the password rule as the source runs it,
because that rule decides which users are saved. The intended rule stands
beside it, with its properties proved.
