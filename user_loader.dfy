/**
 The batch function of the user loader: given the requested user ids and the
 users fetched for them in one query, it indexes the fetched users by id and
 answers every requested id, in request order.
 */
module UserLoader {
  import opened Wrappers
  import opened Entities
  import opened KeyedRows

  /** The key the user dictionary is filled under. */
  function UserId(u: User): int
  {
    u.id
  }

  /** The batch function handed to the user loader. */
  method BatchLoadUsers(userIds: seq<int>, users: seq<User>) returns (r: seq<Option<User>>)
    ensures |r| == |userIds|
    ensures forall i :: 0 <= i < |userIds| ==> r[i] == LastWithKey(users, UserId, userIds[i])
  {
    var userIdToUser: map<int, User> := map[];
    var n := 0;
    while n < |users|
      invariant 0 <= n <= |users|
      invariant forall id :: Get(userIdToUser, id) == LastWithKey(users[..n], UserId, id)
    {
      assert users[..n + 1][..n] == users[..n];
      userIdToUser := userIdToUser[users[n].id := users[n]];
      n := n + 1;
    }
    assert users[..n] == users;
    r := seq(|userIds|, i requires 0 <= i < |userIds| => Get(userIdToUser, userIds[i]));
    forall i | 0 <= i < |userIds|
      ensures r[i] == LastWithKey(users, UserId, userIds[i])
    {
      assert r[i] == Get(userIdToUser, userIds[i]) == LastWithKey(users[..n], UserId, userIds[i]);
    }
  }
}
