/** News articles: their identifiers and the order in which the home page and
    the admin news page show them. */
module News {

  datatype Article = Article(id: int, title: string, content: string)

  /** The key the news list is sorted and filtered on (`x['id']`). */
  function ArticleId(a: Article): int {
    a.id
  }

  const IdModulus: nat := 0x1_0000_0000_0000_0000

  /** `uuid.uuid4().int & (1 << 64) - 1`: `-` binds tighter than `&`, so the id is
      the low 64 bits of the 128-bit uuid. */
  function NewsId(uuid: nat): (id: nat)
    ensures id < IdModulus
    ensures (uuid - id) % IdModulus == 0
    ensures uuid < IdModulus ==> id == uuid
  {
    uuid % IdModulus
  }

  /** The weight of the uuid's variant field, bits 63..62. */
  const VariantUnit: nat := 0x4000_0000_0000_0000

  /** An integer produced by `uuid.uuid4()`: 128 bits, version nibble (bits 76..79)
      set to 4, and the variant bits 63..62 set to binary 10. */
  predicate IsUuid4(u: nat) {
    u < 0x1_0000_0000_0000_0000_0000_0000_0000_0000
    && (u / 0x1_0000_0000_0000_0000_000) % 16 == 4
    && (u / VariantUnit) % 4 == 2
  }

  lemma DivExact(x: nat, r: nat)
    requires r < VariantUnit
    ensures (x * VariantUnit + r) / VariantUnit == x
  {
  }

  lemma ModFour(x: nat, m: nat)
    requires m < 4
    ensures (4 * x + m) % 4 == m
  {
  }

  /** Because of the variant bits, an id taken from a version-4 uuid always has
      its top bit set: it is never zero and lies in [2^63, 2^64). */
  lemma NewsIdOfUuid4(u: nat)
    requires IsUuid4(u)
    ensures 0x8000_0000_0000_0000 <= NewsId(u) < IdModulus
  {
    var hi, lo := u / IdModulus, u % IdModulus;
    var m, r := lo / VariantUnit, lo % VariantUnit;
    assert u == (4 * hi + m) * VariantUnit + r;
    DivExact(4 * hi + m, r);
    ModFour(hi, m);
  }

  predicate SortedByIdDesc(s: seq<Article>) {
    forall i, j | 0 <= i < j < |s| :: s[i].id >= s[j].id
  }

  /** Places `a` before the first article whose id is not larger, so that `a`
      precedes the articles with an equal id. */
  function InsertById(a: Article, s: seq<Article>): (r: seq<Article>)
    ensures multiset(r) == multiset(s) + multiset{a}
    ensures |r| == |s| + 1
    ensures r[0] == a || (s != [] && r[0] == s[0])
  {
    if s == [] || s[0].id <= a.id then [a] + s
    else
      assert s == [s[0]] + s[1..];
      [s[0]] + InsertById(a, s[1..])
  }

  lemma {:induction false} InsertKeepsSorted(a: Article, s: seq<Article>)
    requires SortedByIdDesc(s)
    ensures SortedByIdDesc(InsertById(a, s))
  {
    if s != [] && s[0].id > a.id {
      var t := InsertById(a, s[1..]);
      assert SortedByIdDesc(s[1..]) by {
        forall i, j | 0 <= i < j < |s[1..]| ensures s[1..][i].id >= s[1..][j].id {
          assert s[1..][i] == s[i + 1] && s[1..][j] == s[j + 1];
        }
      }
      InsertKeepsSorted(a, s[1..]);
      var r := [s[0]] + t;
      forall i, j | 0 <= i < j < |r| ensures r[i].id >= r[j].id {
        if i == 0 {
          assert t[0].id <= s[0].id;
          assert t[0].id >= t[j - 1].id;
        } else {
          assert r[i] == t[i - 1] && r[j] == t[j - 1];
        }
      }
    }
  }

  /** `sorted(news, key=lambda x: x['id'], reverse=True)`. */
  function SortByIdDesc(s: seq<Article>): (r: seq<Article>)
    ensures multiset(r) == multiset(s)
    ensures SortedByIdDesc(r)
  {
    if s == [] then []
    else
      assert s == [s[0]] + s[1..];
      InsertKeepsSorted(s[0], SortByIdDesc(s[1..]));
      InsertById(s[0], SortByIdDesc(s[1..]))
  }

  /** The articles of `s` carrying id `k`, in their order in `s`. */
  function WithId(s: seq<Article>, k: int): seq<Article> {
    if s == [] then []
    else if s[0].id == k then [s[0]] + WithId(s[1..], k)
    else WithId(s[1..], k)
  }

  lemma {:induction false} WithIdOfInsert(a: Article, s: seq<Article>, k: int)
    ensures WithId(InsertById(a, s), k) == if a.id == k then [a] + WithId(s, k) else WithId(s, k)
  {
    if s == [] || s[0].id <= a.id {
      assert ([a] + s)[0] == a && ([a] + s)[1..] == s;
    } else {
      WithIdOfInsert(a, s[1..], k);
      var r := [s[0]] + InsertById(a, s[1..]);
      assert r[0] == s[0] && r[1..] == InsertById(a, s[1..]);
    }
  }

  /** Python's sort is stable, also with `reverse=True`: articles with the same id
      keep their order from the file. With sortedness and the multiset equality,
      this pins the result down completely. */
  lemma {:induction false} SortByIdDescStable(s: seq<Article>, k: int)
    ensures WithId(SortByIdDesc(s), k) == WithId(s, k)
  {
    if s != [] {
      SortByIdDescStable(s[1..], k);
      WithIdOfInsert(s[0], SortByIdDesc(s[1..]), k);
    }
  }

  const HomeNewsCount: nat := 3

  /** Cutting a list sorted by descending id leaves the larger ids in front. */
  lemma SortedPrefix(sorted: seq<Article>, n: nat)
    requires n <= |sorted| && SortedByIdDesc(sorted)
    ensures SortedByIdDesc(sorted[..n])
    ensures forall a, y | a in sorted[n..] && y in sorted[..n] :: a.id <= y.id
  {
    forall a, y | a in sorted[n..] && y in sorted[..n]
      ensures a.id <= y.id
    {
      var j :| 0 <= j < |sorted[n..]| && sorted[n..][j] == a;
      var i :| 0 <= i < n && sorted[..n][i] == y;
      assert sorted[n + j] == a && sorted[i] == y;
    }
  }

  /** `sorted(news, key=lambda x: x['id'], reverse=True)[:3]` on the home page:
      min(3, |news|) articles, highest id first, all taken from the list, and no
      article left out has a higher id than one shown. */
  function LatestNews(news: seq<Article>): (r: seq<Article>)
    ensures |r| == if |news| < HomeNewsCount then |news| else HomeNewsCount
    ensures SortedByIdDesc(r)
    ensures multiset(r) <= multiset(news)
    ensures forall a, y | a in multiset(news) - multiset(r) && y in r :: a.id <= y.id
  {
    var sorted := SortByIdDesc(news);
    assert |sorted| == |news| by {
      assert |multiset(sorted)| == |multiset(news)|;
    }
    var n := if |sorted| < HomeNewsCount then |sorted| else HomeNewsCount;
    SortedPrefix(sorted, n);
    assert sorted == sorted[..n] + sorted[n..];
    assert multiset(news) == multiset(sorted[..n]) + multiset(sorted[n..]);
    assert multiset(news) - multiset(sorted[..n]) == multiset(sorted[n..]);
    sorted[..n]
  }
}
