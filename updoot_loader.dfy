/**
 The batch function of the updoot loader: given the requested (userId, postId)
 keys and the votes fetched for them in one query, it indexes the votes by the
 string `userId|postId` and answers every requested key, in request order.
 */
module UpdootLoader {
  import opened Wrappers
  import opened Entities
  import opened KeyedRows

  // ---------------------------------------------------------------------------
  // The dictionary key: the template string `${userId}|${postId}`

  function DigitChar(d: int): (c: char)
    requires 0 <= d < 10
    ensures '0' <= c <= '9'
  {
    ('0' as int + d) as char
  }

  /** The decimal form of a natural number, as JavaScript prints an integer. */
  function NatToString(n: nat): (r: string)
    ensures |r| >= 1
    ensures n >= 10 ==> |r| >= 2
    ensures forall c :: c in r ==> '0' <= c <= '9'
    decreases n
  {
    if n < 10 then [DigitChar(n)] else NatToString(n / 10) + [DigitChar(n % 10)]
  }

  /** The decimal form of an integer, with a leading '-' when negative. */
  function IntToString(i: int): (r: string)
    ensures |r| >= 1
    ensures r[0] == '-' <==> i < 0
    ensures '|' !in r
  {
    if i < 0 then "-" + NatToString(-i)
    else
      var digits := NatToString(i);
      assert digits[0] in digits;
      digits
  }

  function KeyString(userId: int, postId: int): string
  {
    IntToString(userId) + "|" + IntToString(postId)
  }

  /** The dictionary key under which a vote with key `k` is stored and looked up. */
  function KeyOf(k: VoteKey): string
  {
    KeyString(k.userId, k.postId)
  }

  lemma {:induction false} NatToStringInjective(a: nat, b: nat)
    requires NatToString(a) == NatToString(b)
    ensures a == b
    decreases a
  {
    var sa, sb := NatToString(a), NatToString(b);
    if a < 10 && b < 10 {
      assert sa[0] == DigitChar(a) && sb[0] == DigitChar(b);
    } else if a >= 10 && b >= 10 {
      var pa, pb := NatToString(a / 10), NatToString(b / 10);
      assert sa == pa + [DigitChar(a % 10)] && sb == pb + [DigitChar(b % 10)];
      assert |pa| == |pb|;
      assert sa[|pa|] == DigitChar(a % 10) && sb[|pb|] == DigitChar(b % 10);
      assert pa == sa[..|pa|] && pb == sb[..|pb|];
      NatToStringInjective(a / 10, b / 10);
    }
  }

  lemma IntToStringInjective(a: int, b: int)
    requires IntToString(a) == IntToString(b)
    ensures a == b
  {
    var sa, sb := IntToString(a), IntToString(b);
    if a < 0 && b < 0 {
      assert NatToString(-a) == sa[1..] && NatToString(-b) == sb[1..];
      NatToStringInjective(-a, -b);
    } else if a >= 0 && b >= 0 {
      NatToStringInjective(a, b);
    } else {
      assert false;
    }
  }

  /** In `s|t` with no '|' in `s`, the first '|' stands right after `s`. */
  lemma BarEndsFirstPart(s: string, t: string, i: int)
    requires '|' !in s && 0 <= i <= |s|
    ensures (s + "|" + t)[i] == '|' <==> i == |s|
  {
  }

  /** Distinct (userId, postId) pairs never share a dictionary key. */
  lemma KeyStringInjective(u1: int, p1: int, u2: int, p2: int)
    requires KeyString(u1, p1) == KeyString(u2, p2)
    ensures u1 == u2 && p1 == p2
  {
    var s1, s2 := IntToString(u1), IntToString(u2);
    var t1, t2 := IntToString(p1), IntToString(p2);
    var whole := KeyString(u1, p1);
    assert whole == s1 + "|" + t1 == s2 + "|" + t2;
    var m := if |s1| < |s2| then |s1| else |s2|;
    BarEndsFirstPart(s1, t1, m);
    BarEndsFirstPart(s2, t2, m);
    assert s1 == whole[..|s1|] == s2;
    assert t1 == whole[|s1| + 1..] == t2;
    IntToStringInjective(u1, u2);
    IntToStringInjective(p1, p2);
  }

  lemma KeyOfInjective(k1: VoteKey, k2: VoteKey)
    requires KeyOf(k1) == KeyOf(k2)
    ensures k1 == k2
  {
    KeyStringInjective(k1.userId, k1.postId, k2.userId, k2.postId);
  }

  // ---------------------------------------------------------------------------
  // The batch function

  /** The key of a vote row, as `Updoot.findByIds` matches it. */
  function VoteKeyOf(u: Updoot): VoteKey
  {
    u.Key()
  }

  /** The batch function handed to the updoot loader; `None` means "this user has not voted on this post". */
  method BatchLoadUpdoots(keys: seq<VoteKey>, updoots: seq<Updoot>) returns (r: seq<Option<Updoot>>)
    ensures |r| == |keys|
    ensures forall i :: 0 <= i < |keys| ==> r[i] == LastWithKey(updoots, VoteKeyOf, keys[i])
  {
    var updootIdsToUpdoot: map<string, Updoot> := map[];
    var n := 0;
    while n < |updoots|
      invariant 0 <= n <= |updoots|
      invariant forall k :: Get(updootIdsToUpdoot, KeyOf(k)) == LastWithKey(updoots[..n], VoteKeyOf, k)
    {
      var updoot := updoots[n];
      assert updoots[..n + 1][..n] == updoots[..n];
      forall k | k != updoot.Key()
        ensures KeyOf(k) != KeyOf(updoot.Key())
      {
        if KeyOf(k) == KeyOf(updoot.Key()) {
          KeyOfInjective(k, updoot.Key());
        }
      }
      updootIdsToUpdoot := updootIdsToUpdoot[KeyOf(updoot.Key()) := updoot];
      n := n + 1;
    }
    assert updoots[..n] == updoots;
    r := seq(|keys|, i requires 0 <= i < |keys| => Get(updootIdsToUpdoot, KeyOf(keys[i])));
  }
}
