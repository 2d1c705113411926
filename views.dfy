/**
 * The category list endpoint: it admits any authenticated caller and lists
 * only the categories that caller authored.
 */
module CategoryViews {
  import opened Results
  import opened Models
  import opened Permissions

  /** The authentication failure of the `IsAuthenticated` gate. */
  datatype ListError = NotAuthenticated

  /** `IsAuthenticated.has_permission`: there is a user and it is not the anonymous one. */
  predicate IsAuthenticated(req: Requester) {
    req.Authenticated?
  }

  /** `Category.objects.filter(author=user)`, keeping the table's order. */
  function AuthoredBy(categories: seq<Category>, author: UserId): (r: seq<Category>)
    ensures |r| <= |categories|
    ensures forall c :: c in r ==> c in categories && c.author == author
    ensures forall c :: c in categories && c.author == author ==> c in r
    ensures forall c :: multiset(r)[c] == if c.author == author then multiset(categories)[c] else 0
  {
    if categories == [] then []
    else
      var rest := AuthoredBy(categories[1..], author);
      assert categories == [categories[0]] + categories[1..];
      assert forall c :: c in categories ==> c == categories[0] || c in categories[1..];
      if categories[0].author == author then [categories[0]] + rest else rest
  }

  /** `CategoryViewset.list`: the permission gate, then `get_queryset`. Nothing is written. */
  function ListCategories(req: Requester, categories: seq<Category>): (r: Result<seq<Category>, ListError>)
    ensures r.Err? <==> req.Anonymous?
    ensures r.Ok? ==> forall c :: c in r.value ==> c in categories && c.author == req.id
    ensures r.Ok? ==> forall c :: c in categories && c.author == req.id ==> c in r.value
    ensures r.Ok? ==> forall c :: multiset(r.value)[c] == if c.author == req.id then multiset(categories)[c] else 0
  {
    if !IsAuthenticated(req) then Err(NotAuthenticated)
    else Ok(AuthoredBy(categories, req.id))
  }

  /** Another user's category never appears in a listing. */
  lemma ForeignCategoryHidden(req: Requester, categories: seq<Category>, c: Category)
    requires req.Authenticated? && c.author != req.id
    ensures ListCategories(req, categories).Ok?
    ensures c !in ListCategories(req, categories).value
  {
  }

  /** The gate is authentication alone: a non-author may list, though the author check would refuse it. */
  lemma NonAuthorMayList(req: Requester, categories: seq<Category>)
    requires req.Authenticated? && !req.user.isAuthor
    ensures ListCategories(req, categories).Ok?
    ensures !Grants(HasPermission(req))
  {
  }

  /** Each own category is listed exactly as often as the table holds it: a table without repeats lists each once. */
  lemma ListingHasNoRepeats(req: Requester, categories: seq<Category>, i: nat, j: nat)
    requires req.Authenticated? && UniqueCategories(categories)
    requires i < j < |ListCategories(req, categories).value|
    ensures ListCategories(req, categories).value[i] != ListCategories(req, categories).value[j]
  {
    var r := AuthoredBy(categories, req.id);
    if r[i] == r[j] {
      RepeatCountsTwice(r, i, j);
      UniqueCountsOnce(categories, r[i]);
      assert false;
    }
  }

  /** A row found at two positions of a sequence occurs in it at least twice. */
  lemma RepeatCountsTwice(s: seq<Category>, i: nat, j: nat)
    requires i < j < |s| && s[i] == s[j]
    ensures multiset(s)[s[i]] >= 2
  {
    assert s == s[..i] + [s[i]] + s[i + 1..j] + [s[j]] + s[j + 1..];
  }

  /** A table with unique keys holds each row at most once. */
  lemma {:induction false} UniqueCountsOnce(categories: seq<Category>, c: Category)
    requires UniqueCategories(categories)
    ensures multiset(categories)[c] <= 1
  {
    if categories != [] {
      var tail := categories[1..];
      assert categories == [categories[0]] + tail;
      assert UniqueCategories(tail) by {
        forall i, j | 0 <= i < j < |tail|
          ensures tail[i].id != tail[j].id
        {
          assert tail[i] == categories[i + 1] && tail[j] == categories[j + 1];
        }
      }
      UniqueCountsOnce(tail, c);
      if c == categories[0] {
        assert c !in tail by {
          forall j | 0 <= j < |tail|
            ensures tail[j] != c
          {
            assert tail[j] == categories[j + 1];
          }
        }
      }
    }
  }

  /** The scenario of the listing tests: one own and one foreign category list as the own one alone. */
  lemma ListingExample(me: UserId, other: UserId, u: User)
    requires me != other
    ensures ListCategories(Authenticated(me, u),
                           [Category(1, "sport", "sport", other), Category(2, "casual", "casual", me)])
         == Ok([Category(2, "casual", "casual", me)])
  {
    var cs := [Category(1, "sport", "sport", other), Category(2, "casual", "casual", me)];
    assert cs[1..] == [Category(2, "casual", "casual", me)];
    assert cs[1..][1..] == [];
    assert AuthoredBy(cs[1..][1..], me) == [];
    assert AuthoredBy(cs[1..], me) == [cs[1]];
  }
}
