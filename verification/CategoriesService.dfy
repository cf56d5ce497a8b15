/**
 The category service: what one transaction of each operation does, and what all of them keep. New ids are
 parameters, and `fresh` ids are in no table.
 */
module CategoriesService {
  import opened Common
  import opened Categories

  datatype Error = NotFound | SelfParent | Cycle | SlugConflict | LinkConflict | PrimaryMissing | NotALeaf

  const OTHER := "other"

  // ---------------------------------------------------------------- the rules

  ghost predicate IsLeaf(t: Tree, c: int) {
    forall x :: x in t ==> t[x].parentId != Some(c)
  }

  predicate HasProducts(links: map<Link, bool>, c: int) {
    exists l :: l in links && l.category == c
  }

  predicate SlugTaken(t: Tree, parent: Option<int>, slug: string) {
    exists c :: c in t && t[c].parentId == parent && t[c].slug == slug
  }

  ghost predicate UniqueSlugs(t: Tree) {
    forall a, b :: a in t && b in t && a != b && t[a].parentId == t[b].parentId ==> t[a].slug != t[b].slug
  }

  /** Products attach only to leaf categories. */
  ghost predicate OnLeaves(t: Tree, links: map<Link, bool>) {
    forall l :: l in links ==> l.category in t && IsLeaf(t, l.category)
  }

  /** Exactly one primary category for every product that has any. */
  ghost predicate OnePrimary(links: map<Link, bool>) {
    && (forall l :: l in links ==> HasPrimary(links, l.product))
    && (forall l, m :: l in links && m in links && l.product == m.product && links[l] && links[m] ==> l == m)
  }

  ghost predicate HasPrimary(links: map<Link, bool>, product: int) {
    exists l :: l in links && l.product == product && links[l]
  }

  ghost predicate Good(t: Tree, links: map<Link, bool>) {
    Forest(t) && UniqueSlugs(t) && OnLeaves(t, links) && OnePrimary(links)
  }

  // ---------------------------------------------------------------- displacing products

  function Home(l: Link, from: int, to: int): Link {
    if l.category == from then l.(category := to) else l
  }

  /** No product is linked to both: the primary key lets every link of `from` become one of `to`. */
  predicate CanRehome(links: map<Link, bool>, from: int, to: int) {
    from != to && forall l :: l in links && l.category == from ==> Link(l.product, to) !in links
  }

  /** UPDATE product_categories SET category_id = to WHERE category_id = from */
  function Rehomed(links: map<Link, bool>, from: int, to: int): map<Link, bool> {
    map m | m in links.Keys + Arrivals(links, from, to) && m.category != from ::
      if Link(m.product, from) in links && m.category == to then links[Link(m.product, from)] else links[m]
  }

  function Arrivals(links: map<Link, bool>, from: int, to: int): (r: set<Link>)
    ensures forall m :: m in r <==> m.category == to && Link(m.product, from) in links
  {
    set l | l in links && l.category == from :: Link(l.product, to)
  }

  function OtherCategory(t: Tree, parent: int): Category
    requires parent in t
  {
    Category(Some(parent), "سایر " + t[parent].name, OTHER, 9999)
  }

  /**
   Each link is still there, with its flag, at a category of the same subtree: no product leaves a subtree it was in.
   The links there are now are exactly those.
   */
  lemma RehomedStaysInSubtree(links: map<Link, bool>, t: Tree, from: int, to: int, l: Link, a: int)
    requires CanRehome(links, from, to) && ParentOf(t, to) == Some(from) && l in links
    ensures var m := Home(l, from, to);
            && m in Rehomed(links, from, to) && Rehomed(links, from, to)[m] == links[l]
            && m.product == l.product && (Below(t, l.category, a) ==> Below(t, m.category, a))
    ensures forall m :: m in Rehomed(links, from, to) ==>
                          || (m in links && Home(m, from, to) == m)
                          || (Link(m.product, from) in links && Home(Link(m.product, from), from, to) == m)
  {
    if l.category == from && Below(t, from, a) {
      ThenAbove(t, to, from, a);
    }
  }

  lemma RehomedKeepsOnePrimary(links: map<Link, bool>, from: int, to: int)
    requires CanRehome(links, from, to) && OnePrimary(links)
    ensures OnePrimary(Rehomed(links, from, to))
  {
    var after := Rehomed(links, from, to);
    forall m | m in after
      ensures HasPrimary(after, m.product)
    {
      assert HasPrimary(links, m.product);
      var p :| p in links && p.product == m.product && links[p];
      assert Home(p, from, to) in after && after[Home(p, from, to)];
    }
  }

  // ---------------------------------------------------------------- what keeps the rules

  /** A new child of a category without products. */
  lemma AddKeepsGood(t: Tree, links: map<Link, bool>, id: int, c: Category)
    requires Good(t, links) && id !in t && (c.parentId.Some? ==> c.parentId.value in t)
    requires !SlugTaken(t, c.parentId, c.slug)
    requires c.parentId.Some? ==> !HasProducts(links, c.parentId.value)
    ensures Good(t[id := c], links)
  {
    AddKeepsForest(t, id, c);
  }

  /** A category with products is a leaf, so its `other` child is new. */
  lemma ProductsMakeALeaf(t: Tree, links: map<Link, bool>, parent: int, slug: string)
    requires OnLeaves(t, links) && HasProducts(links, parent)
    ensures parent in t && IsLeaf(t, parent) && !SlugTaken(t, Some(parent), slug)
  {
    var l :| l in links && l.category == parent;
    assert l.category in t && IsLeaf(t, l.category);
  }

  lemma DisplacedAreOnLeaves(t: Tree, links: map<Link, bool>, parent: int, other: int)
    requires ParentsExist(t) && OnLeaves(t, links) && parent in t && other !in t && CanRehome(links, parent, other)
    ensures var links' := Rehomed(links, parent, other);
            OnLeaves(t[other := OtherCategory(t, parent)], links') && !HasProducts(links', parent)
  {
    var t' := t[other := OtherCategory(t, parent)];
    forall m | m in Rehomed(links, parent, other)
      ensures m.category in t' && IsLeaf(t', m.category) && m.category != parent
    {
      assert m in links ==> m.category in t && IsLeaf(t, m.category);
    }
  }

  /** Products displaced into a new `other` child. */
  lemma DisplaceKeepsGood(t: Tree, links: map<Link, bool>, parent: int, other: int)
    requires Good(t, links) && parent in t && other !in t && HasProducts(links, parent)
    ensures CanRehome(links, parent, other)
    ensures var t' := t[other := OtherCategory(t, parent)];
            var links' := Rehomed(links, parent, other);
            Good(t', links') && !HasProducts(links', parent)
  {
    ProductsMakeALeaf(t, links, parent, OTHER);
    AddKeepsForest(t, other, OtherCategory(t, parent));
    RehomedKeepsOnePrimary(links, parent, other);
    DisplacedAreOnLeaves(t, links, parent, other);
  }

  /** A subtree moved under a category outside it that has no products. */
  lemma MoveKeepsGood(t: Tree, links: map<Link, bool>, id: int, parent: Option<int>)
    requires Good(t, links) && id in t
    requires parent.Some? ==> parent.value in t && !Below(t, parent.value, id) && !HasProducts(links, parent.value)
    requires forall c :: c in t && c != id && t[c].parentId == parent ==> t[c].slug != t[id].slug
    ensures Good(Moved(t, id, parent), links)
  {
    MoveKeepsForest(t, id, parent);
  }

  /** Links rewritten for one product: on leaves, and with its one primary. */
  lemma SetKeepsGood(t: Tree, links: map<Link, bool>, product: int, ids: set<int>, primary: int)
    requires Good(t, links) && primary in ids
    requires forall c :: c in ids ==> c in t && IsLeaf(t, c)
    ensures Good(t, Assigned(links, product, ids, primary))
  {
    var after := Assigned(links, product, ids, primary);
    assert Link(product, primary) in after;
    forall l | l in after
      ensures HasPrimary(after, l.product)
    {
      if l.product == product {
        assert after[Link(product, primary)];
      } else {
        var p :| p in links && p.product == l.product && links[p];
        assert p in after && after[p];
      }
    }
  }

  /** The product's links replaced by one per category of `ids`. */
  function Assigned(links: map<Link, bool>, product: int, ids: set<int>, primary: int): map<Link, bool> {
    map l | l in links.Keys + (set c | c in ids :: Link(product, c)) && (l.product == product ==> l.category in ids) ::
      if l.product == product then l.category == primary else links[l]
  }

  // ---------------------------------------------------------------- the tables after each operation

  /** After the products of `parent`, if any, have gone to its `other` child. */
  function DisplacedTree(t: Tree, links: map<Link, bool>, parent: int, other: int): Tree
    requires parent in t
  {
    if HasProducts(links, parent) then t[other := OtherCategory(t, parent)] else t
  }

  function DisplacedLinks(links: map<Link, bool>, parent: int, other: int): map<Link, bool> {
    if HasProducts(links, parent) then Rehomed(links, parent, other) else links
  }

  /** A category of slug `slug` cannot join the children of `parent`. */
  ghost predicate Conflicts(t: Tree, links: map<Link, bool>, id: Option<int>, parent: Option<int>, slug: string) {
    || (exists c :: c in t && Some(c) != id && t[c].parentId == parent && t[c].slug == slug)
    || (parent.Some? && HasProducts(links, parent.value) && slug == OTHER)
  }

  class CategoriesService {
    var categories: Tree
    var links: map<Link, bool>

    ghost predicate Valid()
      reads this
    {
      Good(categories, links)
    }

    constructor ()
      ensures Valid() && categories == map[] && links == map[]
    {
      categories, links := map[], map[];
    }

    /** INSERT: refused when a sibling has the slug. */
    method Insert(id: int, c: Category) returns (ok: bool)
      requires id !in categories
      modifies this`categories
      ensures ok <==> !SlugTaken(old(categories), c.parentId, c.slug)
      ensures categories == if ok then old(categories)[id := c] else old(categories)
    {
      ok := !SlugTaken(categories, c.parentId, c.slug);
      if ok {
        categories := categories[id := c];
      }
    }

    /** Moves the direct products of a category to its `other` child, made when it has none. */
    method MoveProductsToOther(parentId: int, newId: int) returns (ok: bool)
      requires parentId in categories && newId !in categories
      modifies this
      ensures !SlugTaken(old(categories), Some(parentId), OTHER) ==>
                && categories == old(categories)[newId := OtherCategory(old(categories), parentId)]
                && categories[newId] == Category(Some(parentId), "سایر " + old(categories)[parentId].name, "other", 9999)
                && ok == CanRehome(old(links), parentId, newId)
                && links == if ok then Rehomed(old(links), parentId, newId) else old(links)
      ensures SlugTaken(old(categories), Some(parentId), OTHER) ==>
                && categories == old(categories)
                && exists c :: c in categories && categories[c].parentId == Some(parentId) && categories[c].slug == OTHER &&
                     ok == CanRehome(old(links), parentId, c) &&
                     links == if ok then Rehomed(old(links), parentId, c) else old(links)
    {
      var created := Insert(newId, OtherCategory(categories, parentId));
      var otherId := newId;
      if !created {
        otherId :| otherId in categories && categories[otherId].parentId == Some(parentId) && categories[otherId].slug == OTHER;
      }
      ok := CanRehome(links, parentId, otherId);
      if ok {
        links := Rehomed(links, parentId, otherId);
      }
    }

    /** Makes room for a child: products directly in the category go to its `other` child. */
    method MakeRoom(parentId: int, otherId: int)
      requires Valid() && parentId in categories && otherId !in categories
      modifies this
      ensures Valid() && !HasProducts(links, parentId)
      ensures categories == DisplacedTree(old(categories), old(links), parentId, otherId)
      ensures links == DisplacedLinks(old(links), parentId, otherId)
      ensures forall a :: Below(categories, parentId, a) <==> Below(old(categories), parentId, a)
    {
      if HasProducts(links, parentId) {
        DisplaceKeepsGood(categories, links, parentId, otherId);
        ProductsMakeALeaf(categories, links, parentId, OTHER);
        NotAbove(categories, parentId, otherId);
        StaysPut(categories, categories[otherId := OtherCategory(categories, parentId)], parentId, otherId);
        var moved := MoveProductsToOther(parentId, otherId);
      }
    }

    /** Walks up from the new parent; the walk ends because the tree is a forest. */
    method AssertNoCycle(id: int, newParentId: int) returns (ok: bool)
      requires Forest(categories) && newParentId in categories
      ensures ok <==> !Below(categories, newParentId, id)
    {
      ghost var top: nat :| Up(categories, Some(newParentId), top) == None;
      ghost var k: nat := 0;
      var cursor := Some(newParentId);
      while cursor.Some?
        invariant k <= top && Up(categories, Some(newParentId), k) == cursor
        invariant forall j: nat :: j < k ==> Up(categories, Some(newParentId), j) != Some(id)
        decreases top - k
      {
        if cursor.value == id {
          return false;
        }
        UpTwice(categories, Some(newParentId), k, 1);
        if k == top {
          assert false;
        }
        cursor := ParentOf(categories, cursor.value);
        k := k + 1;
      }
      forall j: nat
        ensures Up(categories, Some(newParentId), j) != Some(id)
      {
        if k <= j {
          UpTwice(categories, Some(newParentId), k, j - k);
          NoneUp(categories, j - k);
        }
      }
      return true;
    }

    method Create(parentId: Option<int>, name: string, slug: string, newId: int, otherId: int) returns (r: Result<int, Error>)
      requires Valid() && newId !in categories && otherId !in categories && newId != otherId
      modifies this
      ensures Valid()
      ensures r.Err? ==> categories == old(categories) && links == old(links)
      ensures r.Err? <==>
              || (parentId.Some? && parentId.value !in old(categories))
              || Conflicts(old(categories), old(links), None, parentId, slug)
      ensures r.Err? ==> r.error == if parentId.Some? && parentId.value !in old(categories) then NotFound else SlugConflict
      ensures r.Ok? ==> r.value == newId
      ensures r.Ok? ==>
                categories == (if parentId.Some? then DisplacedTree(old(categories), old(links), parentId.value, otherId)
                               else old(categories))[newId := Category(parentId, name, slug, 0)]
      ensures r.Ok? ==> links == if parentId.Some? then DisplacedLinks(old(links), parentId.value, otherId) else old(links)
    {
      var categories0, links0 := categories, links;
      if parentId.Some? {
        if parentId.value !in categories {
          return Err(NotFound);
        }
        SiblingsAfterDisplacing(categories, links, parentId.value, otherId, slug);
        MakeRoom(parentId.value, otherId);
      }
      if !SlugTaken(categories, parentId, slug) {
        AddKeepsGood(categories, links, newId, Category(parentId, name, slug, 0));
      }
      var ok := Insert(newId, Category(parentId, name, slug, 0));
      if !ok {
        categories, links := categories0, links0;
        return Err(SlugConflict);
      }
      return Ok(newId);
    }

    /** UPDATE of the parent: refused when a new sibling has the slug. */
    method UpdateParent(id: int, parent: Option<int>) returns (ok: bool)
      requires Valid() && id in categories
      requires parent.Some? ==>
                 parent.value in categories && !Below(categories, parent.value, id) && !HasProducts(links, parent.value)
      modifies this`categories
      ensures Valid()
      ensures ok <==> !exists c :: c in old(categories) && c != id && old(categories)[c].parentId == parent &&
                                   old(categories)[c].slug == old(categories)[id].slug
      ensures categories == if ok then Moved(old(categories), id, parent) else old(categories)
    {
      ok := !exists c :: c in categories && c != id && categories[c].parentId == parent && categories[c].slug == categories[id].slug;
      if ok {
        MoveKeepsGood(categories, links, id, parent);
        categories := categories[id := categories[id].(parentId := parent)];
      }
    }

    method Move(id: int, newParentId: Option<int>, otherId: int) returns (r: Result<(), Error>)
      requires Valid() && otherId !in categories
      modifies this
      ensures Valid()
      ensures r.Err? ==> categories == old(categories) && links == old(links)
      ensures r.Err? <==>
              || id !in old(categories)
              || (newParentId.Some? && newParentId.value !in old(categories))
              || (newParentId.Some? && Below(old(categories), newParentId.value, id))
              || Conflicts(old(categories), old(links), Some(id), newParentId, old(categories)[id].slug)
      ensures r.Err? ==>
                r.error == if newParentId == Some(id) then SelfParent
                           else if id !in old(categories) || (newParentId.Some? && newParentId.value !in old(categories)) then NotFound
                           else if newParentId.Some? && Below(old(categories), newParentId.value, id) then Cycle
                           else SlugConflict
      ensures r.Ok? ==> id in old(categories) && (newParentId.Some? ==> newParentId.value in old(categories))
      ensures r.Ok? ==>
                categories == (if newParentId.Some? then DisplacedTree(old(categories), old(links), newParentId.value, otherId)
                               else old(categories))[id := old(categories)[id].(parentId := newParentId)]
      ensures r.Ok? ==> links == if newParentId.Some? then DisplacedLinks(old(links), newParentId.value, otherId) else old(links)
    {
      var categories0, links0 := categories, links;
      if newParentId.Some? && newParentId.value == id {
        BelowItself(categories, id);
        return Err(SelfParent);
      }
      if id !in categories || (newParentId.Some? && newParentId.value !in categories) {
        return Err(NotFound);
      }
      if newParentId.Some? {
        var fits := AssertNoCycle(id, newParentId.value);
        if !fits {
          return Err(Cycle);
        }
        MakeRoom(newParentId.value, otherId);
      }
      var ok := UpdateParent(id, newParentId);
      if !ok {
        categories, links := categories0, links0;
        return Err(SlugConflict);
      }
      return Ok(());
    }

    method SetProductCategories(product: int, categoryIds: seq<int>, primaryId: int) returns (r: Result<(), Error>)
      requires Valid()
      modifies this`links
      ensures Valid()
      ensures r.Ok? <==> primaryId in categoryIds && forall c :: c in categoryIds ==> c in categories && IsLeaf(categories, c)
      ensures r.Err? ==>
                r.error == if primaryId !in categoryIds then PrimaryMissing
                           else if exists c :: c in categoryIds && c !in categories then NotFound else NotALeaf
      ensures links == if r.Ok? then Assigned(old(links), product, Elements(categoryIds), primaryId) else old(links)
      ensures r.Ok? ==> forall c :: Link(product, c) in links <==> c in categoryIds
      ensures r.Ok? ==> forall c :: c in categoryIds ==> links[Link(product, c)] == (c == primaryId)
      ensures forall l: Link :: l.product != product ==> (l in links <==> l in old(links)) && (l in links ==> links[l] == old(links)[l])
    {
      var ids := Elements(categoryIds);
      if primaryId !in ids {
        return Err(PrimaryMissing);
      }
      if exists c :: c in ids && c !in categories {
        return Err(NotFound);
      }
      if exists x :: x in categories && categories[x].parentId.Some? && categories[x].parentId.value in ids {
        ghost var x :| x in categories && categories[x].parentId.Some? && categories[x].parentId.value in ids;
        assert !IsLeaf(categories, categories[x].parentId.value);
        return Err(NotALeaf);
      }
      SetKeepsGood(categories, links, product, ids, primaryId);
      links := Assigned(links, product, ids, primaryId);
      return Ok(());
    }
  }

  /** Displacing adds one sibling, `other`, and only where there were products. */
  lemma SiblingsAfterDisplacing(t: Tree, links: map<Link, bool>, parent: int, other: int, slug: string)
    requires parent in t && other !in t
    ensures SlugTaken(DisplacedTree(t, links, parent, other), Some(parent), slug) <==>
            SlugTaken(t, Some(parent), slug) || (HasProducts(links, parent) && slug == OTHER)
  {
    var t' := DisplacedTree(t, links, parent, other);
    if HasProducts(links, parent) && slug == OTHER {
      assert other in t' && t'[other].parentId == Some(parent) && t'[other].slug == slug;
    }
    if c :| c in t && t[c].parentId == Some(parent) && t[c].slug == slug {
      assert c in t' && t'[c] == t[c];
    }
  }

  lemma BelowItself(t: Tree, x: int)
    ensures Below(t, x, x)
  {
    assert Up(t, Some(x), 0) == Some(x);
  }
}
