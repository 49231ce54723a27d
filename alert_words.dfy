/**
 * A user's alert words: the keywords whose appearance in a message notifies
 * the user. Each user record stores its list in one field; words are added
 * and removed by read-modify-write of that field, and a realm (tenant) wide
 * index maps every active user with a non-empty list to that list.
 *
 * The stored JSON text is modelled by the decoded list itself, so encoding
 * and decoding are the identity here.
 */
module AlertWords {

  type UserId = int
  type RealmId = int

  // ---------------------------------------------------------------------------
  // Word lists
  // ---------------------------------------------------------------------------

  /** `s` occurs in `t` in order, possibly with gaps. */
  predicate IsSubsequence(s: seq<string>, t: seq<string>)
    decreases |t|
  {
    if s == [] then true
    else if t == [] then false
    else if s[0] == t[0] then IsSubsequence(s[1..], t[1..])
    else IsSubsequence(s, t[1..])
  }

  /**
   * The words of `s` that do not occur in `excluded`, in their order in `s`,
   * every copy kept. Both list comprehensions of the source have this shape:
   * the new words of an addition and the list left after a removal.
   */
  function Without(s: seq<string>, excluded: seq<string>): (r: seq<string>)
    ensures |r| <= |s|
    ensures forall w :: w in r <==> w in s && w !in excluded
  {
    if s == [] then []
    else if s[0] in excluded then Without(s[1..], excluded)
    else [s[0]] + Without(s[1..], excluded)
  }

  /** Each word is kept with its full multiplicity, or dropped entirely. */
  lemma {:induction false} WithoutCount(s: seq<string>, excluded: seq<string>, w: string)
    ensures multiset(Without(s, excluded))[w] == if w in excluded then 0 else multiset(s)[w]
  {
    if s != [] {
      WithoutCount(s[1..], excluded, w);
      assert s == [s[0]] + s[1..];
    }
  }

  /** The kept words keep their relative order. */
  lemma {:induction false} WithoutIsSubsequence(s: seq<string>, excluded: seq<string>)
    ensures IsSubsequence(Without(s, excluded), s)
  {
    if s != [] {
      WithoutIsSubsequence(s[1..], excluded);
      var rest := Without(s[1..], excluded);
      if s[0] in excluded {
        assert rest != [] ==> rest[0] in rest;
      } else {
        assert ([s[0]] + rest)[1..] == rest;
      }
    }
  }

  /** A subsequence holds no more copies of a word than the sequence it is taken from. */
  lemma {:induction false} SubsequenceCount(s: seq<string>, t: seq<string>, w: string)
    requires IsSubsequence(s, t)
    ensures multiset(s)[w] <= multiset(t)[w]
    decreases |t|
  {
    if s != [] {
      assert t == [t[0]] + t[1..];
      if s[0] == t[0] {
        SubsequenceCount(s[1..], t[1..], w);
        assert s == [s[0]] + s[1..];
      } else {
        SubsequenceCount(s, t[1..], w);
      }
    }
  }

  /**
   * Order and multiplicity determine the filter: the only subsequence of `s`
   * that holds no excluded word and every other word of `s` as often as `s`
   * does is Without(s, excluded).
   */
  lemma {:induction false} WithoutUnique(s: seq<string>, excluded: seq<string>, r: seq<string>)
    requires IsSubsequence(r, s)
    requires forall w :: multiset(r)[w] == if w in excluded then 0 else multiset(s)[w]
    ensures r == Without(s, excluded)
    decreases |s|
  {
    if s != [] {
      var x, rest := s[0], s[1..];
      assert s == [x] + rest;
      if x in excluded {
        if r != [] {
          assert r == [r[0]] + r[1..];
          assert multiset(r)[r[0]] > 0;
        }
        assert IsSubsequence(r, rest);
        forall w ensures multiset(r)[w] == if w in excluded then 0 else multiset(rest)[w] {
          assert w !in excluded ==> w != x;
        }
        WithoutUnique(rest, excluded, r);
      } else {
        assert multiset(r)[x] == multiset(s)[x] > 0;
        assert r != [];
        assert r == [r[0]] + r[1..];
        if r[0] != x {
          SubsequenceCount(r, rest, x);
          assert false;
        }
        assert IsSubsequence(r[1..], rest);
        forall w ensures multiset(r[1..])[w] == if w in excluded then 0 else multiset(rest)[w] {
        }
        WithoutUnique(rest, excluded, r[1..]);
      }
    }
  }

  /** Filtering out words that are all absent from `s` leaves `s` as it was. */
  lemma {:induction false} WithoutNoneExcluded(s: seq<string>, excluded: seq<string>)
    requires forall w :: w in excluded ==> w !in s
    ensures Without(s, excluded) == s
  {
    if s != [] {
      assert s[0] in s;
      WithoutNoneExcluded(s[1..], excluded);
      assert s == [s[0]] + s[1..];
    }
  }

  /** Filtering a list by words that cover it leaves nothing. */
  lemma {:induction false} WithoutAllExcluded(s: seq<string>, excluded: seq<string>)
    requires forall w :: w in s ==> w in excluded
    ensures Without(s, excluded) == []
  {
    if s != [] {
      assert s[0] in s;
      WithoutAllExcluded(s[1..], excluded);
    }
  }

  /** Filtering twice by the same words is filtering once. */
  lemma {:induction false} WithoutTwice(s: seq<string>, excluded: seq<string>)
    ensures Without(Without(s, excluded), excluded) == Without(s, excluded)
  {
    WithoutNoneExcluded(Without(s, excluded), excluded);
  }

  // ---------------------------------------------------------------------------
  // Adding words
  // ---------------------------------------------------------------------------

  /**
   * The list an addition stores: the old list followed by the input words
   * that are not in the OLD list. Membership is tested before the list is
   * extended, so a word repeated in the input is appended every time.
   */
  function AddedWords(words: seq<string>, input: seq<string>): seq<string>
  {
    words + Without(input, words)
  }

  /**
   * The old list is an unchanged prefix of the new one, and the appended
   * suffix is the input in input order, with every word of the old list
   * dropped and every other word kept as often as the input holds it.
   */
  lemma AddedWordsShape(words: seq<string>, input: seq<string>)
    ensures |words| <= |AddedWords(words, input)|
    ensures AddedWords(words, input)[..|words|] == words
    ensures IsSubsequence(AddedWords(words, input)[|words|..], input)
    ensures forall w :: multiset(AddedWords(words, input)[|words|..])[w]
                        == if w in words then 0 else multiset(input)[w]
  {
    var r := AddedWords(words, input);
    assert r[|words|..] == Without(input, words);
    WithoutIsSubsequence(input, words);
    forall w ensures multiset(r[|words|..])[w] == if w in words then 0 else multiset(input)[w] {
      WithoutCount(input, words, w);
    }
  }

  /** Adding words that are all present already leaves the list as it was. */
  lemma AddedWordsAllPresent(words: seq<string>, input: seq<string>)
    requires forall w :: w in input ==> w in words
    ensures AddedWords(words, input) == words
  {
    WithoutAllExcluded(input, words);
  }

  /** Adding the same input twice gives the same list as adding it once. */
  lemma AddedWordsTwice(words: seq<string>, input: seq<string>)
    ensures AddedWords(AddedWords(words, input), input) == AddedWords(words, input)
  {
    var once := AddedWords(words, input);
    forall w | w in input ensures w in once {
      if w !in words {
        assert w in Without(input, words);
      }
    }
    AddedWordsAllPresent(once, input);
  }

  /** Duplicates within the input are all appended: ["a", "a"] added to [] gives ["a", "a"]. */
  lemma AddedWordsKeepsInputDuplicates()
    ensures AddedWords([], ["a", "a"]) == ["a", "a"]
  {
  }

  // ---------------------------------------------------------------------------
  // Users
  // ---------------------------------------------------------------------------

  /** A user as the realm query sees it. */
  datatype UserRecord = UserRecord(id: UserId, realm: RealmId, isActive: bool, alertWords: seq<string>)

  /** The stored user; only `alertWords` is written by this component. */
  class UserProfile {
    const id: UserId
    var realm: RealmId
    var isActive: bool
    var alertWords: seq<string>

    constructor (id: UserId, realm: RealmId, isActive: bool)
      ensures Record() == UserRecord(id, realm, isActive, [])
    {
      this.id := id;
      this.realm := realm;
      this.isActive := isActive;
      alertWords := [];
    }

    /** The fields of the user, as one value. */
    function Record(): UserRecord
      reads this
    {
      UserRecord(id, realm, isActive, alertWords)
    }
  }

  /** Reads the user's list (decoding the stored text is the identity in this model). */
  function UserAlertWords(user: UserProfile): seq<string>
    reads user
  {
    user.alertWords
  }

  /** Stores `alertWords` as the user's list, writing that one field only. */
  method SetUserAlertWords(user: UserProfile, alertWords: seq<string>)
    modifies user`alertWords
    ensures user.Record() == old(user.Record()).(alertWords := alertWords)
  {
    user.alertWords := alertWords;
  }

  /** Appends the input words missing from the user's list; returns the list now stored. */
  method AddUserAlertWords(user: UserProfile, alertWords: seq<string>) returns (words: seq<string>)
    modifies user`alertWords
    ensures words == AddedWords(old(user.alertWords), alertWords)
    ensures user.Record() == old(user.Record()).(alertWords := words)
  {
    words := UserAlertWords(user);
    var newWords := Without(alertWords, words);
    words := words + newWords;
    SetUserAlertWords(user, words);
  }

  /** Drops every copy of every input word from the user's list; returns the list now stored. */
  method RemoveUserAlertWords(user: UserProfile, alertWords: seq<string>) returns (words: seq<string>)
    modifies user`alertWords
    ensures words == Without(old(user.alertWords), alertWords)
    ensures user.Record() == old(user.Record()).(alertWords := words)
  {
    words := UserAlertWords(user);
    words := Without(words, alertWords);
    SetUserAlertWords(user, words);
  }

  /** The add-then-remove scenario: ["foo", "bar"], add ["bar", "baz"], remove ["foo"]. */
  method AddThenRemove(user: UserProfile)
    modifies user`alertWords
  {
    SetUserAlertWords(user, ["foo", "bar"]);
    var words := AddUserAlertWords(user, ["bar", "baz"]);
    assert words == ["foo", "bar", "baz"];
    words := RemoveUserAlertWords(user, ["foo"]);
    assert words == ["bar", "baz"];
    assert user.alertWords == ["bar", "baz"];
  }

  // ---------------------------------------------------------------------------
  // The realm index
  // ---------------------------------------------------------------------------

  /** The query's condition: in the realm, active, stored list not the empty list. */
  predicate Selected(u: UserRecord, realm: RealmId)
  {
    u.realm == realm && u.isActive && u.alertWords != []
  }

  /** The (id, words) rows of the selected users, in table order. */
  function RealmQuery(users: seq<UserRecord>, realm: RealmId): seq<(UserId, seq<string>)>
  {
    if users == [] then []
    else
      var u := users[|users| - 1];
      RealmQuery(users[..|users| - 1], realm) + if Selected(u, realm) then [(u.id, u.alertWords)] else []
  }

  /** A dictionary built from rows in order: a later row with the same key replaces an earlier one. */
  function DictOf(rows: seq<(UserId, seq<string>)>): map<UserId, seq<string>>
  {
    if rows == [] then map[]
    else
      var last := rows[|rows| - 1];
      DictOf(rows[..|rows| - 1])[last.0 := last.1]
  }

  /** Keeps the entries whose list is non-empty. */
  function NonEmptyOnly(m: map<UserId, seq<string>>): map<UserId, seq<string>>
  {
    map id | id in m && |m[id]| > 0 :: m[id]
  }

  /** Maps each active user of `realm` with a non-empty list to that list. */
  function AlertWordsInRealm(users: seq<UserRecord>, realm: RealmId): map<UserId, seq<string>>
  {
    NonEmptyOnly(DictOf(RealmQuery(users, realm)))
  }

  /** No two different records share an id. */
  predicate UniqueIds(users: seq<UserRecord>)
  {
    forall u, v :: u in users && v in users && u.id == v.id ==> u == v
  }

  lemma {:induction false} RealmQueryRows(users: seq<UserRecord>, realm: RealmId)
    ensures forall row :: row in RealmQuery(users, realm) <==>
              exists u :: u in users && Selected(u, realm) && row == (u.id, u.alertWords)
  {
    if users != [] {
      var init, u := users[..|users| - 1], users[|users| - 1];
      RealmQueryRows(init, realm);
      assert users == init + [u];
    }
  }

  lemma {:induction false} DictOfEntries(rows: seq<(UserId, seq<string>)>)
    ensures forall k :: k in DictOf(rows) <==> exists row :: row in rows && row.0 == k
    ensures forall k :: k in DictOf(rows) ==> (k, DictOf(rows)[k]) in rows
  {
    if rows != [] {
      var init, last := rows[..|rows| - 1], rows[|rows| - 1];
      DictOfEntries(init);
      assert rows == init + [last];
    }
  }

  /**
   * The index holds exactly the ids of the selected users; each value is the
   * list of a selected user with that id, and with unique ids it is that
   * user's list.
   */
  lemma AlertWordsInRealmSpec(users: seq<UserRecord>, realm: RealmId)
    ensures forall id :: id in AlertWordsInRealm(users, realm) <==>
              exists u :: u in users && Selected(u, realm) && u.id == id
    ensures forall id :: id in AlertWordsInRealm(users, realm) ==>
              exists u :: u in users && Selected(u, realm) && u.id == id
                          && AlertWordsInRealm(users, realm)[id] == u.alertWords
    ensures UniqueIds(users) ==>
              forall u :: u in users && Selected(u, realm) ==>
                (u.id in AlertWordsInRealm(users, realm) && AlertWordsInRealm(users, realm)[u.id] == u.alertWords)
  {
    var rows := RealmQuery(users, realm);
    var dict := DictOf(rows);
    RealmQueryRows(users, realm);
    DictOfEntries(rows);
    forall id | id in dict ensures |dict[id]| > 0 {
      assert (id, dict[id]) in rows;
    }
    forall id ensures id in AlertWordsInRealm(users, realm) <==> id in dict {
    }
    forall u | u in users && Selected(u, realm)
      ensures u.id in dict
    {
      assert (u.id, u.alertWords) in rows;
    }
  }

  /** Users A = ["x"], B = [] and C = ["y", "z"] give {A: ["x"], C: ["y", "z"]}. */
  lemma AlertWordsInRealmExample()
    ensures AlertWordsInRealm([UserRecord(1, 7, true, ["x"]), UserRecord(2, 7, true, []),
                               UserRecord(3, 7, true, ["y", "z"])], 7)
            == map[1 := ["x"], 3 := ["y", "z"]]
  {
    var a, b, c := UserRecord(1, 7, true, ["x"]), UserRecord(2, 7, true, []), UserRecord(3, 7, true, ["y", "z"]);
    var index := AlertWordsInRealm([a, b, c], 7);
    AlertWordsInRealmSpec([a, b, c], 7);
    assert Selected(a, 7) && !Selected(b, 7) && Selected(c, 7);
    assert a in [a, b, c] && c in [a, b, c];
    forall id | id in index ensures id == 1 || id == 3 {
      var u :| u in [a, b, c] && Selected(u, 7) && u.id == id;
    }
    assert index.Keys == {1, 3};
    assert index[1] == ["x"] && index[3] == ["y", "z"];
  }
}
