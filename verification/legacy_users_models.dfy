/**
 * What backend/foodgram/users/models.py adds to the shared user tables:
 * the username validator `^[\w.@+-]+$` and the listing ordered by id
 * (the 150-character limit is a field width, not modelled). Uniqueness and the subscription cascade are
 * the ones of UsersModels and Store.
 *
 * `RegexValidator` uses `re.search`, and in Python `$` matches at the end
 * of the string or just before a newline that ends it, so the pattern as
 * written also accepts a valid name followed by one "\n". The corrected
 * validator anchors at the very end (`\Z`).
 */
module LegacyUsersModels {
  import opened Collections
  import opened Sorting
  import opened UsersModels

  /** `[\w.@+-]`, with `\w` taken as ASCII letters, digits and underscore. */
  predicate UsernameChar(c: char)
  {
    || 'a' <= c <= 'z' || 'A' <= c <= 'Z' || '0' <= c <= '9'
    || c == '_' || c == '.' || c == '@' || c == '+' || c == '-'
  }

  /** `[\w.@+-]+`: one or more allowed characters. */
  predicate UsernameBody(s: string)
  {
    |s| > 0 && forall i :: 0 <= i < |s| ==> UsernameChar(s[i])
  }

  /** `re.search(r'^[\w.@+-]+$', s)` as written: the body, optionally followed by one final "\n". */
  predicate UsernameRegexAsWritten(s: string)
  {
    UsernameBody(s) || (|s| > 1 && s[|s| - 1] == '\n' && UsernameBody(s[..|s| - 1]))
  }

  /** The intended full match `^[\w.@+-]+\Z`. */
  predicate UsernameRegexCorrected(s: string)
  {
    UsernameBody(s)
  }

  /** The pattern as written lets "a\n" through; the corrected one does not. */
  lemma TrailingNewlineAccepted()
    ensures UsernameRegexAsWritten("a\n")
    ensures !UsernameRegexCorrected("a\n")
  {
    assert "a\n"[..1] == "a";
    assert !UsernameChar("a\n"[1]);
  }

  /**
   * The pattern as written accepts exactly the corrected names and the
   * corrected names followed by one line break.
   */
  lemma AsWrittenIsCorrectedPlusNewline(s: string)
    ensures UsernameRegexAsWritten(s) <==>
      UsernameRegexCorrected(s) || (s != [] && s[|s| - 1] == '\n' && UsernameRegexCorrected(s[..|s| - 1]))
  {
  }

  /** The corrected validator accepts exactly the names the written one accepts that hold no line break. */
  lemma CorrectedDropsOnlyNewlines(s: string)
    ensures UsernameRegexCorrected(s) <==> UsernameRegexAsWritten(s) && '\n' !in s
  {
  }

  predicate IdLe(a: (UserId, User), b: (UserId, User))
  {
    a.0 <= b.0
  }

  /** `ordering = ['id']`: the user listing is the table sorted by id, unlike the newer revision's by username. */
  function OrderById(users: seq<(UserId, User)>): (r: seq<(UserId, User)>)
    ensures multiset(r) == multiset(users)
    ensures forall i, j :: 0 <= i < j < |r| ==> r[i].0 <= r[j].0
  {
    assert TotalPreorder(IdLe);
    SortSorted(users, IdLe);
    Sort(users, IdLe)
  }

  /** With distinct ids (the primary key) the listing is strictly increasing. */
  lemma OrderByIdStrict(users: seq<(UserId, User)>)
    requires forall i, j :: 0 <= i < j < |users| ==> users[i].0 != users[j].0
    ensures var r := OrderById(users);
      forall i, j :: 0 <= i < j < |r| ==> r[i].0 < r[j].0
  {
    var r := OrderById(users);
    forall i, j | 0 <= i < j < |r|
      ensures r[i].0 < r[j].0
    {
      if r[i].0 == r[j].0 {
        DistinctKeysMultiset(users, r, i, j);
      }
    }
  }

  /** Two rows of a permutation of a table with distinct ids cannot share an id. */
  lemma DistinctKeysMultiset(users: seq<(UserId, User)>, r: seq<(UserId, User)>, i: nat, j: nat)
    requires forall a, b :: 0 <= a < b < |users| ==> users[a].0 != users[b].0
    requires multiset(r) == multiset(users) && i < j < |r|
    ensures r[i].0 != r[j].0
  {
    assert r[i] in multiset(users) && r[j] in multiset(users);
    var a :| 0 <= a < |users| && users[a] == r[i];
    var b :| 0 <= b < |users| && users[b] == r[j];
    if r[i] == r[j] {
      var m := multiset(r);
      assert multiset(r[..j]) + multiset(r[j..]) == m by { assert r == r[..j] + r[j..]; }
      assert r[i] in multiset(r[..j]) && r[j] in multiset(r[j..]);
      assert m[r[i]] >= 2;
      assert users[a] == users[b];
      DistinctRowsOccurOnce(users, a);
    }
  }

  lemma {:induction false} DistinctRowsOccurOnce(users: seq<(UserId, User)>, a: nat)
    requires forall x, y :: 0 <= x < y < |users| ==> users[x].0 != users[y].0
    requires a < |users|
    ensures multiset(users)[users[a]] == 1
  {
    if a == 0 {
      assert users[0] !in users[1..];
      assert users == [users[0]] + users[1..];
    } else {
      DistinctRowsOccurOnce(users[1..], a - 1);
      assert users == [users[0]] + users[1..];
      assert users[0] != users[a];
    }
  }
}
