/**
 Matching certificate revocation lists with the certificates that verify them. A list is signed by
 its issuer (section 5.1 of RFC 5280); whether a certificate verifies it is a parameter here.
 */
module CrlMatching {
  import opened Basics

  type Cert = nat
  type Crl = nat
  type Verifier = (Cert, Crl) -> bool

  /** The first certificate that verifies the list. */
  function FirstVerifying(verifies: Verifier, certs: seq<Cert>, crl: Crl): (r: Option<nat>)
    ensures r.Some? ==> r.value < |certs| && verifies(certs[r.value], crl)
    ensures r.Some? ==> forall j | 0 <= j < r.value :: !verifies(certs[j], crl)
    ensures r.None? ==> forall j | 0 <= j < |certs| :: !verifies(certs[j], crl)
  {
    if certs == [] then None
    else if verifies(certs[0], crl) then Some(0)
    else
      match FirstVerifying(verifies, certs[1..], crl)
      case None => None
      case Some(i) => Some(i + 1)
  }

  /** Each list in turn takes the first certificate left that verifies it. */
  predicate TakesAll(verifies: Verifier, certs: seq<Cert>, crls: seq<Crl>)
    decreases |crls|
  {
    crls == [] ||
    match FirstVerifying(verifies, certs, crls[0])
    case None => false
    case Some(i) => TakesAll(verifies, Without(certs, i), crls[1..])
  }

  predicate Matches(verifies: Verifier, certs: seq<Cert>, crls: seq<Crl>) {
    |certs| == |crls| && TakesAll(verifies, certs, crls)
  }

  // ---------- success means a matching ----------

  /** List i goes with certificate m[i]; no certificate goes with two lists, and none is left over. */
  ghost predicate IsMatching(verifies: Verifier, certs: seq<Cert>, crls: seq<Crl>, m: seq<nat>) {
    && |m| == |crls| == |certs|
    && (forall i | 0 <= i < |m| :: m[i] < |certs| && verifies(certs[m[i]], crls[i]))
    && (forall i, j | 0 <= i < j < |m| :: m[i] != m[j])
  }

  /** A place in the sequence without element i, seen in the whole sequence. */
  function Restored(i: nat, k: nat): nat {
    if k < i then k else k + 1
  }

  /** A matching of the rest, with the first list on certificate i. */
  lemma ExtendMatching(verifies: Verifier, certs: seq<Cert>, crls: seq<Crl>, i: nat, rest: seq<nat>) returns (m: seq<nat>)
    requires crls != [] && i < |certs| && verifies(certs[i], crls[0])
    requires IsMatching(verifies, Without(certs, i), crls[1..], rest)
    ensures IsMatching(verifies, certs, crls, m)
  {
    m := [i] + seq(|rest|, k requires 0 <= k < |rest| => Restored(i, rest[k]));
    forall k | 0 < k < |m|
      ensures m[k] < |certs| && m[k] != i && verifies(certs[m[k]], crls[k])
    {
      assert certs[m[k]] == Without(certs, i)[rest[k - 1]];
      assert crls[1..][k - 1] == crls[k];
    }
  }

  lemma {:induction false} MatchesGivesMatching(verifies: Verifier, certs: seq<Cert>, crls: seq<Crl>)
    returns (m: seq<nat>)
    requires Matches(verifies, certs, crls)
    ensures IsMatching(verifies, certs, crls, m)
    decreases |crls|
  {
    if crls == [] {
      m := [];
    } else {
      var i := FirstVerifying(verifies, certs, crls[0]).value;
      var rest := MatchesGivesMatching(verifies, Without(certs, i), crls[1..]);
      m := ExtendMatching(verifies, certs, crls, i, rest);
    }
  }

  // ---------- when the first choice is never wrong ----------

  /** Whenever a matching exists, taking the first certificate each time finds one. */
  ghost predicate NeverWrong(verifies: Verifier) {
    forall certs, crls, m :: IsMatching(verifies, certs, crls, m) ==> Matches(verifies, certs, crls)
  }

  /** Certificates that verify a common list verify the same lists. */
  ghost predicate Agreeing(verifies: Verifier) {
    forall cert, cert', crl, crl' ::
      verifies(cert, crl) && verifies(cert', crl) && verifies(cert, crl') ==> verifies(cert', crl')
  }

  /** Where they do not, the first choice may be the wrong one: a matching exists and is not found. */
  lemma FirstChoiceMayBeWrong(verifies: Verifier, cert: Cert, cert': Cert, crl: Crl, crl': Crl)
    requires verifies(cert, crl) && verifies(cert', crl) && verifies(cert, crl') && !verifies(cert', crl')
    ensures IsMatching(verifies, [cert, cert'], [crl, crl'], [1, 0])
    ensures !Matches(verifies, [cert, cert'], [crl, crl'])
  {
    var certs := [cert, cert'];
    assert FirstVerifying(verifies, certs, crl) == Some(0);
    assert Without(certs, 0) == [cert'] && [crl, crl'][1..] == [crl'];
    assert FirstVerifying(verifies, [cert'], [crl'][0]) == None;
    assert !TakesAll(verifies, [cert'], [crl']);
  }

  /** The matching in which the first list is on certificate i, and the list that had i takes over in exchange. */
  function Exchanged(m: seq<nat>, i: nat): (r: seq<nat>)
    requires m != []
    ensures |r| == |m|
    ensures forall k | 0 <= k < |m| :: r[k] == if k == 0 then i else if m[k] == i then m[0] else m[k]
  {
    seq(|m|, k requires 0 <= k < |m| => if k == 0 then i else if m[k] == i then m[0] else m[k])
  }

  lemma ExchangeKeepsMatching(verifies: Verifier, certs: seq<Cert>, crls: seq<Crl>, m: seq<nat>, i: nat)
    requires Agreeing(verifies) && IsMatching(verifies, certs, crls, m) && crls != []
    requires i < |certs| && verifies(certs[i], crls[0])
    ensures IsMatching(verifies, certs, crls, Exchanged(m, i))
  {
    var r := Exchanged(m, i);
    forall k | 0 <= k < |m|
      ensures r[k] < |certs| && verifies(certs[r[k]], crls[k])
    {
      assert verifies(certs[m[0]], crls[0]) && verifies(certs[m[k]], crls[k]);
    }
    forall k, l | 0 <= k < l < |m|
      ensures r[k] != r[l]
    {
      assert m[k] != m[l] && m[0] != m[l] && (k > 0 ==> m[0] != m[k]);
    }
  }

  /** A matching without its first list. */
  lemma MatchingOfRest(verifies: Verifier, certs: seq<Cert>, crls: seq<Crl>, m: seq<nat>) returns (rest: seq<nat>)
    requires IsMatching(verifies, certs, crls, m) && crls != []
    ensures IsMatching(verifies, Without(certs, m[0]), crls[1..], rest)
  {
    var i := m[0];
    rest := seq(|m| - 1, k requires 0 <= k < |m| - 1 => if m[k + 1] < i then m[k + 1] else m[k + 1] - 1);
    forall k | 0 <= k < |rest|
      ensures rest[k] < |certs| - 1 && Without(certs, i)[rest[k]] == certs[m[k + 1]]
    {
      assert m[0] != m[k + 1];
    }
  }

  lemma {:induction false} AgreeingFinds(verifies: Verifier, certs: seq<Cert>, crls: seq<Crl>, m: seq<nat>)
    requires Agreeing(verifies) && IsMatching(verifies, certs, crls, m)
    ensures Matches(verifies, certs, crls)
    decreases |crls|
  {
    if crls != [] {
      assert verifies(certs[m[0]], crls[0]);
      var i := FirstVerifying(verifies, certs, crls[0]).value;
      ExchangeKeepsMatching(verifies, certs, crls, m, i);
      var rest := MatchingOfRest(verifies, certs, crls, Exchanged(m, i));
      AgreeingFinds(verifies, Without(certs, i), crls[1..], rest);
    }
  }

  /** The first choice is never wrong exactly when certificates that verify a common list verify the same lists. */
  lemma NeverWrongExactly(verifies: Verifier)
    ensures NeverWrong(verifies) <==> Agreeing(verifies)
  {
    if Agreeing(verifies) {
      forall certs, crls, m | IsMatching(verifies, certs, crls, m)
        ensures Matches(verifies, certs, crls)
      {
        AgreeingFinds(verifies, certs, crls, m);
      }
    } else {
      var cert, cert', crl, crl' :|
        verifies(cert, crl) && verifies(cert', crl) && verifies(cert, crl') && !verifies(cert', crl');
      FirstChoiceMayBeWrong(verifies, cert, cert', crl, crl');
    }
  }

  // ---------- signatures: keys decide ----------

  function Keys<T, K>(key: T -> K, s: seq<T>): (r: seq<K>)
    ensures |r| == |s| && forall i | 0 <= i < |s| :: r[i] == key(s[i])
  {
    seq(|s|, i requires 0 <= i < |s| => key(s[i]))
  }

  /** A certificate verifies exactly the lists signed with its key. */
  ghost predicate ByKey<K>(verifies: Verifier, certKey: Cert -> K, issuerKey: Crl -> K) {
    forall cert, crl :: verifies(cert, crl) <==> certKey(cert) == issuerKey(crl)
  }

  /** What a certificate verifies, as a key. */
  ghost function Verified(verifies: Verifier, cert: Cert): iset<Crl> {
    iset crl | verifies(cert, crl)
  }

  /** The key of a list: what any certificate verifies that verifies it, or a key no certificate has. */
  ghost function IssuerKey(verifies: Verifier, crl: Crl): iset<Crl> {
    if exists cert :: verifies(cert, crl) then
      var cert :| verifies(cert, crl);
      Verified(verifies, cert)
    else iset{crl}
  }

  /** Signatures are all there is: the relations with keys are those for which the first choice is never wrong. */
  lemma ByKeyExactly(verifies: Verifier)
    ensures NeverWrong(verifies) <==>
            exists certKey: Cert -> iset<Crl>, issuerKey: Crl -> iset<Crl> :: ByKey(verifies, certKey, issuerKey)
  {
    NeverWrongExactly(verifies);
    if Agreeing(verifies) {
      var certKey: Cert -> iset<Crl> := cert => Verified(verifies, cert);
      var issuerKey: Crl -> iset<Crl> := crl => IssuerKey(verifies, crl);
      forall cert, crl
        ensures verifies(cert, crl) <==> certKey(cert) == issuerKey(crl)
      {
        KeysAgree(verifies, cert, crl);
      }
      assert ByKey(verifies, certKey, issuerKey);
    }
  }

  lemma KeysAgree(verifies: Verifier, cert: Cert, crl: Crl)
    requires Agreeing(verifies)
    ensures verifies(cert, crl) <==> Verified(verifies, cert) == IssuerKey(verifies, crl)
  {
    if exists other :: verifies(other, crl) {
      assert crl in IssuerKey(verifies, crl);
    } else {
      assert crl in IssuerKey(verifies, crl) && crl !in Verified(verifies, cert);
    }
  }

  lemma TakeOne<K>(keys: seq<K>, i: nat)
    requires i < |keys|
    ensures multiset(keys) == multiset(Without(keys, i)) + multiset{keys[i]}
  {
    assert keys == keys[..i] + [keys[i]] + keys[i + 1..];
  }

  /** Two sequences with an equal element agree exactly when they agree without it. */
  lemma TakeFromBoth<K>(a: seq<K>, i: nat, b: seq<K>, j: nat)
    requires i < |a| && j < |b| && a[i] == b[j]
    ensures multiset(a) == multiset(b) <==> multiset(Without(a, i)) == multiset(Without(b, j))
  {
    TakeOne(a, i);
    TakeOne(b, j);
    var ma, mb := multiset(Without(a, i)), multiset(Without(b, j));
    assert ma == (ma + multiset{a[i]}) - multiset{a[i]};
    assert mb == (mb + multiset{a[i]}) - multiset{a[i]};
  }

  lemma SameLength<K>(a: seq<K>, b: seq<K>)
    requires multiset(a) == multiset(b)
    ensures |a| == |b|
  {
    assert |multiset(a)| == |a| && |multiset(b)| == |b|;
  }

  /**
   With signatures the first choice is as good as any: all lists match exactly when the keys are the
   same, however ordered.
   */
  lemma {:induction false} MatchesExactlyWhenKeysAgree<K>(
    verifies: Verifier, certKey: Cert -> K, issuerKey: Crl -> K, certs: seq<Cert>, crls: seq<Crl>)
    requires ByKey(verifies, certKey, issuerKey)
    ensures Matches(verifies, certs, crls)
            <==> multiset(Keys(certKey, certs)) == multiset(Keys(issuerKey, crls))
    decreases |crls|
  {
    var ck, lk := Keys(certKey, certs), Keys(issuerKey, crls);
    if |certs| != |crls| {
      if multiset(ck) == multiset(lk) {
        SameLength(ck, lk);
      }
    } else if crls != [] {
      assert Keys(issuerKey, crls[1..]) == Without(lk, 0);
      match FirstVerifying(verifies, certs, crls[0])
      case None =>
        assert lk[0] in multiset(lk) && lk[0] !in multiset(ck);
      case Some(i) =>
        assert Keys(certKey, Without(certs, i)) == Without(ck, i);
        MatchesExactlyWhenKeysAgree(verifies, certKey, issuerKey, Without(certs, i), crls[1..]);
        TakeFromBoth(ck, i, lk, 0);
    } else {
      assert ck == [] && lk == [];
    }
  }

  // ---------- in place ----------

  /** Takes certificate idx out of the first n by moving the later ones down over it. */
  method RemoveInPlace(certs: array<Cert>, n: nat, idx: nat)
    requires idx < n <= certs.Length
    modifies certs
    ensures certs[..n - 1] == Without(old(certs[..n]), idx)
  {
    var k := idx;
    while k < n - 1
      invariant idx <= k <= n - 1
      invariant forall j | 0 <= j < idx :: certs[j] == old(certs[j])
      invariant forall j | idx <= j < k :: certs[j] == old(certs[j + 1])
      invariant forall j | k <= j < n :: certs[j] == old(certs[j])
    {
      certs[k] := certs[k + 1];
      k := k + 1;
    }
  }

  /** The place of the first of the first n certificates that verifies the list, or n. */
  method FindVerifying(verifies: Verifier, certs: array<Cert>, n: nat, crl: Crl) returns (idx: nat)
    requires n <= certs.Length
    ensures FirstVerifying(verifies, certs[..n], crl) == if idx < n then Some(idx) else None
  {
    idx := 0;
    while idx < n && !verifies(certs[idx], crl)
      invariant idx <= n
      invariant forall j | 0 <= j < idx :: !verifies(certs[..n][j], crl)
    {
      idx := idx + 1;
    }
    if idx < n {
      assert certs[..n][idx] == certs[idx];
    }
  }

  /** The certificates are used up in their own array, whose first elements are those left. */
  method CompareWithCerts(verifies: Verifier, certs: array<Cert>, crls: seq<Crl>) returns (ok: bool)
    modifies certs
    ensures ok <==> Matches(verifies, old(certs[..]), crls)
  {
    if certs.Length != |crls| {
      return false;
    }
    var n := certs.Length;
    assert certs[..n] == certs[..];
    for c := 0 to |crls|
      invariant n == |crls| - c
      invariant TakesAll(verifies, old(certs[..]), crls) <==> TakesAll(verifies, certs[..n], crls[c..])
    {
      var idx := FindVerifying(verifies, certs, n, crls[c]);
      assert crls[c..][0] == crls[c] && crls[c..][1..] == crls[c + 1..];
      if idx >= n {
        return false;
      }
      RemoveInPlace(certs, n, idx);
      n := n - 1;
    }
    return true;
  }
}
