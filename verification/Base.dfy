/** Vocabulary shared by every module: options, bytes and content links. */
module Base {

  datatype Option<+T> = None | Some(value: T)

  newtype Byte = n: int | 0 <= n < 256

  type Bytes = seq<Byte>

  /** The `size`/`sha256` pair by which a record names the bytes before it. */
  datatype Link = Link(size: nat, sha: string)

  /** A `Ref`: a link with the path of the file that holds the bytes. */
  datatype Ref = Ref(path: string, size: nat, sha: string)

  /** SHA-256 as lower-case hex, and the canonical bytes of a request key. */
  datatype Hashing = Hashing(sha: Bytes -> string, keyBytes: Key -> Bytes)

  datatype RequestId = IntegerId(number: int) | StringId(text: string)

  datatype Key = Key(instance: string, session: string, id: RequestId)

  /** What a publisher answers: confirmed, failed with the record stored, or failed without it. */
  datatype Publication = Confirmed | Stored | Lost

  datatype Outcome = Returned | Raised | Cancelled

  function Max(a: int, b: int): int {
    if a < b then b else a
  }

  predicate StartsWith(s: string, p: string) {
    |p| <= |s| && s[..|p|] == p
  }

  function LinkOf(h: Hashing, raw: Bytes): Link {
    Link(|raw|, h.sha(raw))
  }

  function RefOf(h: Hashing, path: string, raw: Bytes): Ref {
    Ref(path, |raw|, h.sha(raw))
  }

  function LinkOfRef(r: Ref): Link {
    Link(r.size, r.sha)
  }

  predicate IsSha(text: string) {
    |text| == 64 && forall i | 0 <= i < |text| :: '0' <= text[i] <= '9' || 'a' <= text[i] <= 'f'
  }

  /** Two different byte strings with the same length and digest. */
  ghost predicate Collision(h: Hashing, a: Bytes, b: Bytes) {
    a != b && LinkOf(h, a) == LinkOf(h, b)
  }

  /** The two listings hold such a pair, one in each. */
  ghost predicate Collide(h: Hashing, xs: seq<Bytes>, ys: seq<Bytes>) {
    exists i, j | 0 <= i < |xs| && 0 <= j < |ys| :: Collision(h, xs[i], ys[j])
  }

  lemma CollideExtends(h: Hashing, xs: seq<Bytes>, ys: seq<Bytes>)
    requires xs != [] && ys != [] && Collide(h, xs[..|xs| - 1], ys[..|ys| - 1])
    ensures Collide(h, xs, ys)
  {
    var a, b := xs[..|xs| - 1], ys[..|ys| - 1];
    var i, j :| 0 <= i < |a| && 0 <= j < |b| && Collision(h, a[i], b[j]);
    assert Collision(h, xs[i], ys[j]);
  }

  /** Every byte string names the link of the one before it, and the first names none. */
  ghost predicate HashChained(h: Hashing, previous: Bytes -> Option<Link>, xs: seq<Bytes>) {
    forall i | 0 <= i < |xs| :: LinksBack(h, previous, xs, i)
  }

  ghost predicate LinksBack(h: Hashing, previous: Bytes -> Option<Link>, xs: seq<Bytes>, i: nat)
    requires i < |xs|
  {
    previous(xs[i]) == if i == 0 then None else Some(LinkOf(h, xs[i - 1]))
  }

  /** A hash chain is determined by the link of its last element, short of a collision. */
  lemma {:induction false} EqualHeads(h: Hashing, previous: Bytes -> Option<Link>, xs: seq<Bytes>, ys: seq<Bytes>)
    requires HashChained(h, previous, xs) && HashChained(h, previous, ys) && xs != [] && ys != []
    requires LinkOf(h, xs[|xs| - 1]) == LinkOf(h, ys[|ys| - 1])
    ensures xs == ys || Collide(h, xs, ys)
  {
    var n, m := |xs| - 1, |ys| - 1;
    if xs[n] != ys[m] {
      assert Collision(h, xs[n], ys[m]);
    } else {
      assert xs == xs[..n] + [xs[n]] && ys == ys[..m] + [ys[m]];
      assert LinksBack(h, previous, xs, n) && LinksBack(h, previous, ys, m);
      if n > 0 {
        ShorterChain(h, previous, xs);
        ShorterChain(h, previous, ys);
        EqualHeads(h, previous, xs[..n], ys[..m]);
        if Collide(h, xs[..n], ys[..m]) { CollideExtends(h, xs, ys); }
      }
    }
  }

  lemma ShorterChain(h: Hashing, previous: Bytes -> Option<Link>, xs: seq<Bytes>)
    requires HashChained(h, previous, xs) && xs != []
    ensures HashChained(h, previous, xs[..|xs| - 1])
  {
    var before := xs[..|xs| - 1];
    forall i | 0 <= i < |before| ensures LinksBack(h, previous, before, i) { assert LinksBack(h, previous, xs, i); }
  }

  lemma SetBound<T>(a: set<T>, b: set<T>)
    requires a <= b
    ensures |a| <= |b|
  {
    if a != {} {
      var x :| x in a;
      SetBound(a - {x}, b - {x});
    }
  }
}
