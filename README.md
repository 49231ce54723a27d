# Alert words

A model of Zulip's alert-word store, `zerver/lib/alert_words.py`. Each user has a list of
alert words. These are keywords whose appearance in a message notifies the user. The list
is stored in one field of the user record.

- `add_user_alert_words` reads the list and appends the input words that the list does not
  hold yet. It stores the result and returns it.
- `remove_user_alert_words` drops every copy of every input word. It stores the result and
  returns it.
- `set_user_alert_words` writes the list back. It writes that one field only.
- `alert_words_in_realm` maps each active user of a realm (tenant) to that user's list. It
  keeps only users whose list is non-empty.

Everything is in `alert_words.dfy`, module `AlertWords`:

- Both list comprehensions of the source (line 23 and line 32) have the form "the words of
  one list that are not in another". That is one function, `Without`.
- An addition stores `AddedWords(words, input) == words + Without(input, words)`. Membership
  is tested against the list as it was BEFORE the extension. So a word repeated in the input
  is appended every time: adding `["a", "a"]` to `[]` gives `["a", "a"]`.
- `UserProfile` is a class whose `alertWords` field holds the decoded list. The three
  operations are methods over it. Each may modify `user`alertWords` and nothing else. Their
  postconditions tie the returned list to `AddedWords` or `Without` of the old list. They
  also say that the returned list is what the profile now stores, and that no other field
  changed.
- `AddThenRemove` walks one user through a sequence of calls. It sets `["foo", "bar"]`, adds `["bar", "baz"]` to get `["foo", "bar", "baz"]`, then removes `["foo"]` to get `["bar", "baz"]`. It proves each step from the three methods' contracts alone.
- The realm index is a pure function over a sequence of `UserRecord` values:
  - `RealmQuery` is the filtered query (lines 11-12).
  - `DictOf` is the dictionary built from its rows (line 13). A later row replaces an earlier
    row with the same key.
  - `NonEmptyOnly` is the second filter on list length (line 14).

## Model

| member | source | states |
|---|---|---|
| `AlertWords.Without` | zerver/lib/alert_words.py:32 | a word is in the filtered list exactly when it is in the original list and not among the words to drop; the result is no longer than the original |
| `AlertWords.WithoutCount` | zerver/lib/alert_words.py:32 | every copy of a dropped word is removed; every other word keeps exactly its multiplicity |
| `AlertWords.WithoutIsSubsequence` | zerver/lib/alert_words.py:32 | the kept words keep their relative order (the result is a subsequence of the original) |
| `AlertWords.WithoutUnique` | zerver/lib/alert_words.py:32 | order plus multiplicities determine the filter: any subsequence of the list with those word counts equals the filtered list |
| `AlertWords.WithoutNoneExcluded` | zerver/lib/alert_words.py:32 | removing words that are absent from the list leaves the list unchanged |
| `AlertWords.WithoutTwice` | zerver/lib/alert_words.py:32 | removing the same words twice gives the same list as removing them once |
| `AlertWords.WithoutAllExcluded` | zerver/lib/alert_words.py:23 | when every input word is already in the list, there are no new words |
| `AlertWords.AddedWordsShape` | zerver/lib/alert_words.py:21-24 | after an addition the old list is an unchanged prefix; the appended suffix is a subsequence of the input; it holds no word of the old list and every other input word as often as the input holds it, so input duplicates are kept |
| `AlertWords.AddedWordsAllPresent` | zerver/lib/alert_words.py:23-28 | adding words that are all present leaves the list unchanged |
| `AlertWords.AddedWordsTwice` | zerver/lib/alert_words.py:23-28 | adding the same input twice gives the same list as adding it once |
| `AlertWords.AddedWordsKeepsInputDuplicates` | zerver/lib/alert_words.py:23-24 | adding `["a", "a"]` to `[]` gives `["a", "a"]`, because membership is tested against the list before it is extended |
| `AlertWords.SetUserAlertWords` | zerver/lib/alert_words.py:38-40 | the user's list becomes the given list; id, realm and active flag are unchanged |
| `AlertWords.AddUserAlertWords` | zerver/lib/alert_words.py:20-28 | the returned list is the old list extended by the input words missing from the old list; the profile now stores the returned list; no other field changes |
| `AlertWords.RemoveUserAlertWords` | zerver/lib/alert_words.py:30-36 | the returned list is the old list without the input words; the profile now stores the returned list; no other field changes |
| `AlertWords.RealmQueryRows` | zerver/lib/alert_words.py:11-12 | the query yields exactly the (id, list) rows of users in the realm who are active and whose list is not empty |
| `AlertWords.DictOfEntries` | zerver/lib/alert_words.py:13 | the dictionary's keys are exactly the rows' ids, and each value is the list of some row with that id |
| `AlertWords.AlertWordsInRealmSpec` | zerver/lib/alert_words.py:10-15 | the keys are exactly the ids of active users of the realm with a non-empty list; each value is such a user's list; when ids are unique, each such user maps to their own list |
| `AlertWords.AlertWordsInRealmExample` | zerver/lib/alert_words.py:10-15 | users A = `["x"]`, B = `[]` and C = `["y", "z"]` of one realm give `{A: ["x"], C: ["y", "z"]}` |

## Left out

- The database query and persistence are not modelled. This covers `UserProfile.objects.filter`, `Q`, `.values` and `save(update_fields=...)`. The users table is a sequence of `UserRecord` values. Saving is the assignment to the one field. The `modifies user`alertWords` frame states that only that field is written.
- The `cache_with_key` decorator on `alert_words_in_realm` is not modelled: its cache key and its 24-hour timeout are cache-library behaviour. The model always computes the index afresh.
- UserAlertWords: the stored text is the decoded list, so `ujson.dumps`/`ujson.loads` are the identity and `user_alert_words` just reads the field. The decode error for a stored value that is not a JSON list cannot arise in the model.
- `ujson.dumps([])` is `"[]"`, so the query's text filter `alert_words != "[]"` is modelled as "the list is not empty" (`Selected`). The later `len(w)` filter is kept as its own step, `NonEmptyOnly`. In the model the two filters coincide.
- The query result order is not fixed by the source. `RealmQuery` keeps table order. Order only matters for duplicate ids, and a primary key rules those out. With unique ids, `AlertWordsInRealmSpec` gives each user their own list. Without them, it says only that the value is the list of one of the selected records with that id.
- Concurrent read-modify-write calls can lose an update. The model is sequential and does not capture this.
