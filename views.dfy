/** The request decisions of the REST viewsets (content/views.py): which
    permission guards each action, how the list endpoints filter their
    querysets, the view-count and status updates, the site-logo upload and
    the login redirect target.

    A queryset is a sequence of rows, `.filter(...)` is `Filter`, and a
    query parameter is `None` when absent from the request. */
module Views {
  import opened Common
  import Slugs
  import Models

  // ---------------------------------------------------------------------
  // Users and permission classes
  // ---------------------------------------------------------------------

  /** `request.user`: the anonymous user, or an account that may be staff. */
  datatype User = Anonymous | Account(isStaff: bool)

  predicate IsAuthenticated(u: User)
  {
    u.Account?
  }

  predicate IsStaff(u: User)
  {
    u.Account? && u.isStaff
  }

  const SafeMethods: set<string> := {"GET", "HEAD", "OPTIONS"}

  /** `AllowAny`, the two classes defined in the views module, and REST
      framework's `IsAdminUser`. */
  datatype Permission = AllowAny | IsAdmin | IsAdminOrReadOnly | IsAdminUser

  /** `has_permission` of each class. Despite its name, `IsAdmin` only asks
      for an authenticated user; only `IsAdminUser` asks for staff. */
  predicate HasPermission(p: Permission, verb: string, user: User)
  {
    match p
    case AllowAny => true
    case IsAdmin => IsAuthenticated(user)
    case IsAdminOrReadOnly => verb in SafeMethods || IsAuthenticated(user)
    case IsAdminUser => IsStaff(user)
  }

  /** `IsAdminOrReadOnly` lets every safe method through and any other
      method only for an authenticated user; `IsAdmin` admits non-staff
      accounts. */
  lemma PermissionClasses(verb: string, user: User)
    ensures verb in SafeMethods ==> HasPermission(IsAdminOrReadOnly, verb, user)
    ensures verb !in SafeMethods ==> (HasPermission(IsAdminOrReadOnly, verb, user) <==> IsAuthenticated(user))
    ensures HasPermission(IsAdmin, verb, Account(false))
    ensures !HasPermission(IsAdminUser, verb, Account(false))
  {
  }

  // ---------------------------------------------------------------------
  // Per-action permission tables
  // ---------------------------------------------------------------------

  datatype ViewSet =
    | BlogPosts | Banners | Abouts | Projects | Leads | ProjectCategories
    | BlogCategories | TeamMembers | Clients | ServiceCategories | Services
    | SiteLogos | SiteConfigs | Careers | Notices | JobApplications

  /** The router's standard actions, and the `@action` methods by name. */
  datatype Action = List | Retrieve | Create | Update | PartialUpdate | Destroy | Extra(name: string)

  /** What an overridden `get_permissions` returns; None for the viewsets
      that do not override it. */
  function Override(v: ViewSet, a: Action): Option<Permission>
  {
    match v
    case BlogPosts | Projects | ProjectCategories | BlogCategories | Clients
      | ServiceCategories | Services | SiteLogos =>
      Some(if a == List || a == Retrieve then AllowAny else IsAdmin)
    case SiteConfigs =>
      Some(if a == List || a == Retrieve || a == Extra("active") then AllowAny else IsAdmin)
    case Leads | JobApplications =>
      Some(if a == Create then AllowAny else IsAdmin)
    case _ => None
  }

  /** `permission_classes` given in an `@action` decorator. */
  function Decorated(v: ViewSet, a: Action): Option<Permission>
  {
    match (v, a)
    case (BlogPosts, Extra("published")) => Some(AllowAny)
    case (BlogPosts, Extra("by_slug")) => Some(AllowAny)
    case (Banners, Extra("active")) => Some(AllowAny)
    case (Projects, Extra("completed")) => Some(AllowAny)
    case (Projects, Extra("by_slug")) => Some(AllowAny)
    case (Leads, Extra("mark_all_read")) => Some(IsAdminUser)
    case (SiteConfigs, Extra("active")) => Some(AllowAny)
    case (Careers, Extra("active")) => Some(AllowAny)
    case (Careers, Extra("by_slug")) => Some(AllowAny)
    case (Notices, Extra("published")) => Some(AllowAny)
    case (JobApplications, Extra("by_career")) => Some(IsAdmin)
    case (JobApplications, Extra("update_status")) => Some(IsAdmin)
    case _ => None
  }

  /** The class-level `permission_classes` of the viewsets that rely on
      REST framework's own `get_permissions`. */
  function ClassLevel(v: ViewSet): Permission
    requires v in {Banners, Abouts, TeamMembers, Careers, Notices}
  {
    if v == TeamMembers then IsAdminOrReadOnly else IsAdmin
  }

  /** The permission that guards an action as the code is written: an
      overridden `get_permissions` decides alone, so it also overrules the
      `@action` decorators; otherwise the decorator, if any, replaces the
      class-level list. */
  function PermissionAsWritten(v: ViewSet, a: Action): Permission
  {
    match Override(v, a)
    case Some(p) => p
    case None =>
      match Decorated(v, a)
      case Some(p) => p
      case None => ClassLevel(v)
  }

  /** The permission as the decorators declare it: an action's own
      `permission_classes` first. */
  function PermissionIntended(v: ViewSet, a: Action): Permission
  {
    match Decorated(v, a)
    case Some(p) => p
    case None =>
      match Override(v, a)
      case Some(p) => p
      case None => ClassLevel(v)
  }

  predicate Allowed(v: ViewSet, a: Action, verb: string, user: User)
  {
    HasPermission(PermissionAsWritten(v, a), verb, user)
  }

  /** The content viewsets that override `get_permissions` with the
      "public reads" table: list and retrieve are open, every other action
      needs an authenticated user. */
  lemma PublicReadTables(v: ViewSet, a: Action, verb: string, user: User)
    requires v in {BlogPosts, Projects, Services, ProjectCategories, BlogCategories, Clients, ServiceCategories, SiteLogos}
    ensures Allowed(v, a, verb, user) <==> a == List || a == Retrieve || IsAuthenticated(user)
  {
  }

  /** Leads and job applications: only `create` is open. */
  lemma CreateOnlyTables(v: ViewSet, a: Action, verb: string, user: User)
    requires v in {Leads, JobApplications}
    ensures Allowed(v, a, verb, user) <==> a == Create || IsAuthenticated(user)
  {
  }

  /** The two readings differ only where a viewset overrides
      `get_permissions` and an action also carries a decorator. */
  lemma PermissionDifferences(v: ViewSet, a: Action)
    ensures PermissionAsWritten(v, a) != PermissionIntended(v, a) ==> Override(v, a).Some? && Decorated(v, a).Some?
  {
  }

  /** Read as the decorators declare it, an action's own
      `permission_classes` decide whenever it has them; every other action
      is guarded exactly as the code is written. */
  lemma DecoratorsRespected(v: ViewSet, a: Action)
    ensures Decorated(v, a).Some? ==> PermissionIntended(v, a) == Decorated(v, a).value
    ensures Decorated(v, a).None? ==> PermissionIntended(v, a) == PermissionAsWritten(v, a)
  {
  }

  /** The decorated public actions of BlogPosts and Projects refuse an
      anonymous reader, and `mark_all_read` admits any account, not only
      staff. */
  lemma DecoratorsOverruled()
    ensures !Allowed(BlogPosts, Extra("by_slug"), "GET", Anonymous)
    ensures HasPermission(PermissionIntended(BlogPosts, Extra("by_slug")), "GET", Anonymous)
    ensures !Allowed(Projects, Extra("completed"), "GET", Anonymous)
    ensures Allowed(Leads, Extra("mark_all_read"), "POST", Account(false))
    ensures !HasPermission(PermissionIntended(Leads, Extra("mark_all_read")), "POST", Account(false))
  {
  }

  // ---------------------------------------------------------------------
  // Query parameters
  // ---------------------------------------------------------------------

  /** `[t.strip() for t in parts if t.strip()]`. */
  function StrippedItems(parts: seq<string>): (r: seq<string>)
    ensures |r| <= |parts|
    ensures forall i :: 0 <= i < |r| ==> r[i] != ""
  {
    if parts == [] then []
    else
      var t := Strip(parts[0]);
      var rest := StrippedItems(parts[1..]);
      if t != "" then [t] + rest else rest
  }

  /** A tag as the tag list holds it: not empty, no comma, no whitespace
      at either end. */
  predicate IsTag(t: string)
  {
    t != "" && ',' !in t && !IsSpace(t[0]) && !IsSpace(t[|t| - 1])
  }

  /** Stripping comma-free pieces leaves tags. */
  lemma {:induction false} StrippedItemsAreTags(parts: seq<string>)
    requires forall j :: 0 <= j < |parts| ==> ',' !in parts[j]
    ensures forall i :: 0 <= i < |StrippedItems(parts)| ==> IsTag(StrippedItems(parts)[i])
  {
    if parts != [] {
      var rest := parts[1..];
      assert forall j :: 0 <= j < |rest| ==> rest[j] == parts[j + 1];
      StrippedItemsAreTags(rest);
      StripIsTag(parts[0]);
      var t := Strip(parts[0]);
      var items := StrippedItems(rest);
      if t != "" {
        assert StrippedItems(parts) == [t] + items;
        forall i | 0 <= i < |[t] + items|
          ensures IsTag(([t] + items)[i])
        {
          if i > 0 {
            assert ([t] + items)[i] == items[i - 1];
          }
        }
      }
    }
  }

  /** A comma-free piece strips to a tag or to nothing. */
  lemma StripIsTag(p: string)
    requires ',' !in p
    ensures Strip(p) == "" || IsTag(Strip(p))
  {
    StripIsTrimmedSlice(p);
  }

  /** The `tags` parameter split on commas, each piece stripped, empty
      pieces dropped. */
  function TagList(tags: string): (r: seq<string>)
    ensures forall i :: 0 <= i < |r| ==> IsTag(r[i])
  {
    SplitHasNoSep(tags, ',');
    StrippedItemsAreTags(Split(tags, ','));
    StrippedItems(Split(tags, ','))
  }

  /** The comprehension over a concatenation is the concatenation of the
      comprehensions. */
  lemma {:induction false} StrippedItemsConcat(x: seq<string>, y: seq<string>)
    ensures StrippedItems(x + y) == StrippedItems(x) + StrippedItems(y)
  {
    if x == [] {
      assert x + y == y;
    } else {
      assert (x + y)[0] == x[0];
      assert (x + y)[1..] == x[1..] + y;
      StrippedItemsConcat(x[1..], y);
    }
  }

  /** A comma separates the tags of its two sides. */
  lemma TagListAcrossComma(a: string, b: string)
    ensures TagList(a + "," + b) == TagList(a) + TagList(b)
  {
    assert a + "," + b == a + [','] + b;
    SplitAtSep(a, ',', b);
    StrippedItemsConcat(Split(a, ','), Split(b, ','));
  }

  /** A comma-free piece gives its stripped text as the one tag, or no tag
      when it is blank. With `TagListAcrossComma` this fixes the tag list
      of every parameter. */
  lemma TagListOfPiece(p: string)
    requires ',' !in p
    ensures TagList(p) == (if Strip(p) == "" then [] else [Strip(p)])
  {
    SplitNoSep(p, ',');
    assert [p][1..] == [];
  }

  /** Padding is stripped and blank items are dropped: " a , ,b" lists the
      tags "a" and "b". */
  lemma TagListOfPadded()
    ensures TagList(" a , ,b") == ["a", "b"]
  {
    assert " a , ,b" == " a " + "," + " ,b";
    assert " ,b" == " " + "," + "b";
    TagListAcrossComma(" a ", " ,b");
    TagListAcrossComma(" ", "b");
    PaddedPieces();
  }

  lemma PaddedPieces()
    ensures TagList(" a ") == ["a"] && TagList(" ") == [] && TagList("b") == ["b"]
  {
    assert ',' !in " a " by {
      assert forall i :: 0 <= i < |" a "| ==> " a "[i] == ' ' || " a "[i] == 'a';
    }
    assert ',' !in " " by {
      assert " "[0] == ' ';
    }
    assert ',' !in "b" by {
      assert "b"[0] == 'b';
    }
    StripPadded();
    TagListOfPiece(" a ");
    TagListOfPiece(" ");
    TagListOfPiece("b");
  }

  lemma StripPadded()
    ensures Strip(" a ") == "a" && Strip(" ") == "" && Strip("b") == "b"
  {
    StripPaddedA();
    StripBlank();
    StripOfStripped("b");
  }

  lemma StripBlank()
    ensures Strip(" ") == ""
  {
    assert TrimStart(" ") == TrimStart("") by {
      assert " "[0] == ' ' && " "[1..] == "";
    }
    assert TrimEnd("") == "";
  }

  lemma StripPaddedA()
    ensures Strip(" a ") == "a"
  {
    var s := " a ";
    assert TrimStart(s) == "a " by {
      assert s[0] == ' ' && s[1..] == "a ";
      assert "a "[0] == 'a';
    }
    assert TrimEnd("a ") == "a" by {
      assert "a "[1] == ' ' && "a "[..1] == "a";
      assert "a"[0] == 'a';
    }
  }

  /** A non-empty list of tags joined with bare commas reads back as the
      same list. */
  lemma {:induction false} TagListJoin(tags: seq<string>)
    requires |tags| >= 1
    requires forall i :: 0 <= i < |tags| ==> IsTag(tags[i])
    ensures TagList(Join(tags, ',')) == tags
  {
    SplitJoin(tags, ',');
    StrippedItemsOfTags(tags);
  }

  lemma {:induction false} StrippedItemsOfTags(tags: seq<string>)
    requires forall i :: 0 <= i < |tags| ==> IsTag(tags[i])
    ensures StrippedItems(tags) == tags
  {
    if tags != [] {
      StripOfStripped(tags[0]);
      StrippedItemsOfTags(tags[1..]);
    }
  }

  /** `value in ("true", "True", "1")`. */
  predicate FeaturedFlag(value: Option<string>)
  {
    value == Some("true") || value == Some("True") || value == Some("1")
  }

  /** An id query parameter as the ORM converts it for an integer key;
      None when the conversion raises. */
  function IdParam(p: string): (r: Option<nat>)
    ensures r.Some? <==> p != "" && Slugs.IsDigits(p)
  {
    if p != "" && Slugs.IsDigits(p) then Some(Slugs.ParseDigits(p)) else None
  }

  /** The decimal rendering of a key converts back to that key. */
  lemma IdParamOfKey(k: nat)
    ensures IdParam(Slugs.NatToString(k)) == Some(k)
  {
    Slugs.ParseNatToString(k);
  }

  // ---------------------------------------------------------------------
  // BlogPostViewSet.get_queryset
  // ---------------------------------------------------------------------

  /** `category` is the post's category key. */
  datatype Post = Post(pk: nat, slug: string, status: string, category: Option<nat>, tags: string, viewCount: nat)

  /** `category__iexact`: the lookup compares the category's key, as text,
      with the parameter, ignoring case; a post without category never
      matches. */
  predicate CategoryMatches(category: Option<nat>, param: string)
  {
    category.Some? && IEquals(Slugs.NatToString(category.value), param)
  }

  predicate HasAllTags(p: Post, tags: seq<string>)
  {
    forall i :: 0 <= i < |tags| ==> IContains(p.tags, tags[i])
  }

  predicate StatusOk(p: Post, status: Option<string>)
  {
    Truthy(status) ==> p.status == status.value
  }

  predicate CategoryOk(p: Post, category: Option<string>)
  {
    Truthy(category) ==> CategoryMatches(p.category, category.value)
  }

  /** A post kept by the blog list endpoint for the given parameters. */
  predicate PostMatches(p: Post, status: Option<string>, category: Option<string>, tags: Option<string>)
  {
    StatusOk(p, status) && CategoryOk(p, category) &&
    (Truthy(tags) ==> HasAllTags(p, TagList(tags.value)))
  }

  // The filter conditions, as values that `Filter` takes.

  function StatusIs(value: string): Post -> bool
  {
    (p: Post) => p.status == value
  }

  function CategoryIs(value: string): Post -> bool
  {
    (p: Post) => CategoryMatches(p.category, value)
  }

  function TagIn(tag: string): Post -> bool
  {
    (p: Post) => IContains(p.tags, tag)
  }

  function StatusFilter(status: Option<string>): Post -> bool
  {
    (p: Post) => StatusOk(p, status)
  }

  function FiltersSoFar(status: Option<string>, category: Option<string>, tags: seq<string>): Post -> bool
  {
    (p: Post) => StatusOk(p, status) && CategoryOk(p, category) && HasAllTags(p, tags)
  }

  function PostFilter(status: Option<string>, category: Option<string>, tags: Option<string>): Post -> bool
  {
    (p: Post) => PostMatches(p, status, category, tags)
  }

  /** The successive filters of `BlogPostViewSet.get_queryset`, one
      `tags__icontains` filter per tag: the result keeps, in order, the
      posts that match every parameter given. */
  method PostQueryset(posts: seq<Post>, status: Option<string>, category: Option<string>, tags: Option<string>)
    returns (qs: seq<Post>)
    ensures qs == Filter(posts, PostFilter(status, category, tags))
    ensures forall p :: p in qs <==> p in posts && PostMatches(p, status, category, tags)
  {
    qs := posts;
    if Truthy(status) {
      qs := Filter(qs, StatusIs(status.value));
    }
    StatusStep(posts, status);
    if Truthy(category) {
      qs := Filter(qs, CategoryIs(category.value));
    }
    CategoryStep(posts, status, category);
    var tagList := if Truthy(tags) then TagList(tags.value) else [];
    qs := FilterTags(posts, status, category, qs, tagList);
    SameFilter(posts, FiltersSoFar(status, category, tagList), PostFilter(status, category, tags));
  }

  /** The loop of `BlogPostViewSet.get_queryset` over the tag list: one
      `tags__icontains` filter per tag narrows the query already filtered
      by status and category to the posts that carry every tag. */
  method FilterTags(posts: seq<Post>, status: Option<string>, category: Option<string>,
                    start: seq<Post>, tagList: seq<string>)
    returns (qs: seq<Post>)
    requires start == Filter(posts, FiltersSoFar(status, category, []))
    ensures qs == Filter(posts, FiltersSoFar(status, category, tagList))
  {
    qs := start;
    // `done` are the tags filtered on so far, `rest` those still to come
    ghost var done: seq<string> := [];
    var rest := tagList;
    while rest != []
      invariant done + rest == tagList
      invariant qs == Filter(posts, FiltersSoFar(status, category, done))
    {
      TagStep(posts, status, category, done, rest[0]);
      MoveFirst(done, rest);
      qs := Filter(qs, TagIn(rest[0]));
      done := done + [rest[0]];
      rest := rest[1..];
    }
    assert done == tagList;
  }

  /** The `status` filter, applied only when the parameter is given. */
  lemma StatusStep(posts: seq<Post>, status: Option<string>)
    ensures (if Truthy(status) then Filter(posts, StatusIs(status.value)) else posts)
         == Filter(posts, StatusFilter(status))
  {
    if Truthy(status) {
      SameFilter(posts, StatusIs(status.value), StatusFilter(status));
    } else {
      FilterKeepsAll(posts, StatusFilter(status));
    }
  }

  /** The `category` filter, applied only when the parameter is given, after
      the `status` filter. */
  lemma CategoryStep(posts: seq<Post>, status: Option<string>, category: Option<string>)
    ensures (var qs := Filter(posts, StatusFilter(status));
             if Truthy(category) then Filter(qs, CategoryIs(category.value)) else qs)
         == Filter(posts, FiltersSoFar(status, category, []))
  {
    if Truthy(category) {
      FilterTwice(posts, StatusFilter(status), CategoryIs(category.value), FiltersSoFar(status, category, []));
    } else {
      SameFilter(posts, StatusFilter(status), FiltersSoFar(status, category, []));
    }
  }

  /** One more `tags__icontains` filter narrows the query to one more tag. */
  lemma TagStep(posts: seq<Post>, status: Option<string>, category: Option<string>, done: seq<string>, tag: string)
    ensures Filter(Filter(posts, FiltersSoFar(status, category, done)), TagIn(tag))
         == Filter(posts, FiltersSoFar(status, category, done + [tag]))
  {
    forall p: Post
      ensures FiltersSoFar(status, category, done + [tag])(p) == (FiltersSoFar(status, category, done)(p) && TagIn(tag)(p))
    {
      assert forall i :: 0 <= i < |done| ==> (done + [tag])[i] == done[i];
      assert (done + [tag])[|done|] == tag;
    }
    FilterTwice(posts, FiltersSoFar(status, category, done), TagIn(tag), FiltersSoFar(status, category, done + [tag]));
  }

  /** Tags match as case-insensitive substrings of the post's tag text,
      so the tag "art" keeps a post tagged "smart-home". */
  lemma TagsMatchSubstrings()
    ensures HasAllTags(Post(1, "p", "published", None, "Smart-Home", 0), ["art"])
  {
    var low := Lower("Smart-Home");
    assert low == "smart-home";
    assert Lower("art") == "art";
    assert low[2..] == "art-home";
    assert StartsWith(low[2..], "art");
    assert Contains(low[2..], "art");
    assert Contains(low[1..], "art");
    assert Contains(low, "art");
  }

  // ---------------------------------------------------------------------
  // The other list endpoints
  // ---------------------------------------------------------------------

  datatype ProjectRow = ProjectRow(pk: nat, slug: string, status: string, isFeatured: bool)

  /** `ProjectViewSet.get_queryset`. */
  function ProjectQueryset(rows: seq<ProjectRow>, status: Option<string>, isFeatured: Option<string>): (r: seq<ProjectRow>)
    ensures forall p :: p in r <==> p in rows && (Truthy(status) ==> p.status == status.value) && (FeaturedFlag(isFeatured) ==> p.isFeatured)
    ensures !Truthy(status) && !FeaturedFlag(isFeatured) ==> r == rows
  {
    var qs := if Truthy(status) then Filter(rows, (p: ProjectRow) => p.status == status.value) else rows;
    if FeaturedFlag(isFeatured) then Filter(qs, (p: ProjectRow) => p.isFeatured) else qs
  }

  /** `ProjectViewSet.by_slug`: looks up the slug whatever the status and
      counts no view. */
  function ProjectBySlug(rows: seq<ProjectRow>, slug: string): (r: Option<ProjectRow>)
    ensures r.Some? ==> r.value in rows && r.value.slug == slug
    ensures r.None? ==> forall i :: 0 <= i < |rows| ==> rows[i].slug != slug
  {
    if rows == [] then None
    else if rows[0].slug == slug then Some(rows[0])
    else ProjectBySlug(rows[1..], slug)
  }

  datatype ServiceRow = ServiceRow(pk: nat, status: string, category: Option<nat>, isFeatured: bool)

  /** `ServiceViewSet.get_queryset`; None when the category parameter is
      not a number, where the ORM raises. */
  function ServiceQueryset(rows: seq<ServiceRow>, status: Option<string>, category: Option<string>, isFeatured: Option<string>)
    : (r: Option<seq<ServiceRow>>)
    ensures r.None? <==> Truthy(category) && IdParam(category.value).None?
    ensures r.Some? ==> forall s :: s in r.value <==>
              (s in rows
               && (Truthy(status) ==> s.status == status.value)
               && (Truthy(category) ==> s.category == IdParam(category.value))
               && (FeaturedFlag(isFeatured) ==> s.isFeatured))
  {
    var qs := if Truthy(status) then Filter(rows, (s: ServiceRow) => s.status == status.value) else rows;
    if Truthy(category) && IdParam(category.value).None? then None
    else
      var qs' := if Truthy(category) then Filter(qs, (s: ServiceRow) => s.category == IdParam(category.value)) else qs;
      Some(if FeaturedFlag(isFeatured) then Filter(qs', (s: ServiceRow) => s.isFeatured) else qs')
  }

  /** Rows of TeamMember, Client or ServiceCategory. */
  datatype Listed = Listed(pk: nat, isActive: bool)

  /** The three `get_queryset` overrides: staff see every row, everyone
      else only the active ones. */
  function VisibleTo(rows: seq<Listed>, user: User): (r: seq<Listed>)
    ensures IsStaff(user) ==> r == rows
    ensures !IsStaff(user) ==> forall x :: x in r <==> x in rows && x.isActive
  {
    if IsStaff(user) then rows else Filter(rows, (x: Listed) => x.isActive)
  }

  datatype CareerRow = CareerRow(pk: nat, status: string, jobType: string, location: string)

  /** `CareerViewSet.get_queryset`. */
  function CareerQueryset(rows: seq<CareerRow>, status: Option<string>, jobType: Option<string>, location: Option<string>)
    : (r: seq<CareerRow>)
    ensures forall c :: c in r <==>
              (c in rows
               && (Truthy(status) ==> c.status == status.value)
               && (Truthy(jobType) ==> c.jobType == jobType.value)
               && (Truthy(location) ==> IContains(c.location, location.value)))
  {
    var qs := if Truthy(status) then Filter(rows, (c: CareerRow) => c.status == status.value) else rows;
    var qs' := if Truthy(jobType) then Filter(qs, (c: CareerRow) => c.jobType == jobType.value) else qs;
    if Truthy(location) then Filter(qs', (c: CareerRow) => IContains(c.location, location.value)) else qs'
  }

  datatype NoticeRow = NoticeRow(pk: nat, status: string, priority: string)

  /** `NoticeViewSet.get_queryset`. */
  function NoticeQueryset(rows: seq<NoticeRow>, status: Option<string>, priority: Option<string>): (r: seq<NoticeRow>)
    ensures forall n :: n in r <==>
              (n in rows
               && (Truthy(status) ==> n.status == status.value)
               && (Truthy(priority) ==> n.priority == priority.value))
  {
    var qs := if Truthy(status) then Filter(rows, (n: NoticeRow) => n.status == status.value) else rows;
    if Truthy(priority) then Filter(qs, (n: NoticeRow) => n.priority == priority.value) else qs
  }

  datatype ApplicationRow = ApplicationRow(pk: nat, career: nat, status: string, email: string)

  /** `JobApplicationViewSet.get_queryset`; None when the career parameter
      is not a number. */
  function ApplicationQueryset(rows: seq<ApplicationRow>, career: Option<string>, status: Option<string>, email: Option<string>)
    : (r: Option<seq<ApplicationRow>>)
    ensures r.None? <==> Truthy(career) && IdParam(career.value).None?
    ensures r.Some? ==> forall a :: a in r.value <==>
              (a in rows
               && (Truthy(career) ==> Some(a.career) == IdParam(career.value))
               && (Truthy(status) ==> a.status == status.value)
               && (Truthy(email) ==> IContains(a.email, email.value)))
  {
    if Truthy(career) && IdParam(career.value).None? then None
    else
      var qs := if Truthy(career) then Filter(rows, (a: ApplicationRow) => Some(a.career) == IdParam(career.value)) else rows;
      var qs' := if Truthy(status) then Filter(qs, (a: ApplicationRow) => a.status == status.value) else qs;
      Some(if Truthy(email) then Filter(qs', (a: ApplicationRow) => IContains(a.email, email.value)) else qs')
  }

  /** `JobApplicationViewSet.by_career`: the route only matches a
      non-empty `career_id`. None when the ORM cannot convert it to a key;
      otherwise the applications to that career, in order. */
  function ByCareer(rows: seq<ApplicationRow>, careerId: string): (r: Option<seq<ApplicationRow>>)
    requires careerId != ""
    ensures r.None? <==> !Slugs.IsDigits(careerId)
    ensures r.Some? ==> |r.value| <= |rows|
    ensures r.Some? ==> forall a :: a in r.value <==> a in rows && Some(a.career) == IdParam(careerId)
  {
    match IdParam(careerId)
    case None => None
    case Some(k) => Some(Filter(rows, (a: ApplicationRow) => a.career == k))
  }

  /** `by_career` returns what the list endpoint returns for the same
      career parameter alone. */
  lemma ByCareerIsCareerFilter(rows: seq<ApplicationRow>, careerId: string)
    requires careerId != ""
    ensures ByCareer(rows, careerId) == ApplicationQueryset(rows, Some(careerId), None, None)
  {
    if IdParam(careerId).Some? {
      var k := IdParam(careerId).value;
      SameFilter(rows, (a: ApplicationRow) => a.career == k, (a: ApplicationRow) => Some(a.career) == IdParam(careerId));
    }
  }

  // ---------------------------------------------------------------------
  // View counts: by_slug and increment_view
  // ---------------------------------------------------------------------

  /** What the view-count actions read and write of a BlogPost, Career or
      Notice row. */
  datatype Counted = Counted(pk: nat, slug: string, status: string, viewCount: nat)

  /** Slugs and keys are unique columns. */
  predicate UniqueKeys(rows: seq<Counted>)
  {
    forall i, j :: 0 <= i < |rows| && 0 <= j < |rows| && i != j ==>
      rows[i].slug != rows[j].slug && rows[i].pk != rows[j].pk
  }

  /** `objects.get(slug=slug, status=status)`: the index of the row. */
  function FindLive(rows: seq<Counted>, slug: string, status: string): (r: Option<nat>)
    ensures r.Some? ==> r.value < |rows| && rows[r.value].slug == slug && rows[r.value].status == status
    ensures r.None? ==> forall i :: 0 <= i < |rows| ==> rows[i].slug != slug || rows[i].status != status
  {
    if rows == [] then None
    else if rows[|rows| - 1].slug == slug && rows[|rows| - 1].status == status then Some(|rows| - 1)
    else FindLive(rows[..|rows| - 1], slug, status)
  }

  /** `get_object()` by primary key: the index of the row. */
  function FindPk(rows: seq<Counted>, pk: nat): (r: Option<nat>)
    ensures r.Some? ==> r.value < |rows| && rows[r.value].pk == pk
    ensures r.None? ==> forall i :: 0 <= i < |rows| ==> rows[i].pk != pk
  {
    if rows == [] then None
    else if rows[|rows| - 1].pk == pk then Some(|rows| - 1)
    else FindPk(rows[..|rows| - 1], pk)
  }

  /** The table after `view_count += 1` on row `i`. */
  function Bump(rows: seq<Counted>, i: nat): (r: seq<Counted>)
    requires i < |rows|
  {
    rows[i := rows[i].(viewCount := rows[i].viewCount + 1)]
  }

  function TotalViews(rows: seq<Counted>): nat
  {
    if rows == [] then 0 else TotalViews(rows[..|rows| - 1]) + rows[|rows| - 1].viewCount
  }

  /** One more view on one row: keys, slugs and statuses stay, the row's
      count rises by one, and so does the table's total. */
  lemma {:induction false} BumpAddsOneView(rows: seq<Counted>, i: nat)
    requires i < |rows|
    ensures |Bump(rows, i)| == |rows|
    ensures forall j :: 0 <= j < |rows| ==>
              (Bump(rows, i)[j].pk == rows[j].pk && Bump(rows, i)[j].slug == rows[j].slug
               && Bump(rows, i)[j].status == rows[j].status)
    ensures Bump(rows, i)[i].viewCount == rows[i].viewCount + 1
    ensures TotalViews(Bump(rows, i)) == TotalViews(rows) + 1
    decreases |rows|
  {
    var r := Bump(rows, i);
    var n := |rows| - 1;
    if i == n {
      assert r[..n] == rows[..n];
    } else {
      BumpAddsOneView(rows[..n], i);
      assert r[..n] == Bump(rows[..n], i);
    }
  }

  /** With unique slugs, a live row with the slug is the one found. */
  lemma FindLiveIsTheRow(rows: seq<Counted>, slug: string, status: string, k: nat)
    requires UniqueKeys(rows)
    requires k < |rows| && rows[k].slug == slug && rows[k].status == status
    ensures FindLive(rows, slug, status) == Some(k)
  {
  }

  /** A BlogPost, Career or Notice table, as far as view counts go. */
  class ViewCounter {
    var rows: seq<Counted>

    ghost predicate Valid()
      reads this
    {
      UniqueKeys(rows)
    }

    /** `by_slug` of BlogPostViewSet (live status "published") and
        CareerViewSet ("active"): a live row with the slug gains one view
        and is returned; otherwise 404 and nothing changes. */
    method BySlug(slug: string, live: string) returns (r: Option<Counted>)
      requires Valid()
      modifies this
      ensures Valid()
      ensures FindLive(old(rows), slug, live).None? ==> r.None? && rows == old(rows)
      ensures FindLive(old(rows), slug, live).Some? ==>
                var i := FindLive(old(rows), slug, live).value;
                rows == Bump(old(rows), i) && r == Some(rows[i])
    {
      match FindLive(rows, slug, live)
      case None =>
        r := None;
      case Some(i) =>
        BumpAddsOneView(rows, i);
        rows := Bump(rows, i);
        r := Some(rows[i]);
    }

    /** `increment_view` of CareerViewSet and NoticeViewSet: returns the
        new count, the old one plus one; 404 for an unknown key. */
    method IncrementView(pk: nat) returns (count: Option<nat>)
      requires Valid()
      modifies this
      ensures Valid()
      ensures FindPk(old(rows), pk).None? ==> count.None? && rows == old(rows)
      ensures FindPk(old(rows), pk).Some? ==>
                var i := FindPk(old(rows), pk).value;
                rows == Bump(old(rows), i) && count == Some(old(rows)[i].viewCount + 1)
    {
      match FindPk(rows, pk)
      case None =>
        count := None;
      case Some(i) =>
        BumpAddsOneView(rows, i);
        rows := Bump(rows, i);
        count := Some(rows[i].viewCount);
    }
  }

  // ---------------------------------------------------------------------
  // JobApplicationViewSet.update_status
  // ---------------------------------------------------------------------

  /** `new_status` and `admin_notes` are the request's values, None when
      absent. `stored` maps application keys to their stored status; the
      instance is the one `get_object` loaded, so its row exists and holds
      its status. */
  method UpdateStatus(app: Models.JobApplication, newStatus: Option<string>, adminNotes: Option<string>,
                      stored: map<nat, string>, now: Models.Time)
    requires app.pk.Some? && app.pk.value in stored && stored[app.pk.value] == app.status
    modifies app
    ensures app.pk == old(app.pk)
    ensures app.status == (if Truthy(newStatus) then newStatus.value else old(app.status))
    ensures app.adminNotes == (if adminNotes.Some? then adminNotes.value else old(app.adminNotes))
    ensures Models.HasPk(app.pk) ==>
              app.reviewedAt == Models.ReviewedAtOnSave(old(app.status), app.status, old(app.reviewedAt), now)
    ensures !Models.HasPk(app.pk) ==> app.reviewedAt == old(app.reviewedAt)
  {
    if Truthy(newStatus) {
      app.status := newStatus.value;
    }
    if adminNotes.Some? {
      app.adminNotes := adminNotes.value;
    }
    var ok := app.Save(stored, now);
  }

  // ---------------------------------------------------------------------
  // SiteLogoViewSet.create
  // ---------------------------------------------------------------------

  datatype Logo = Logo(file: string, altText: string)

  /** The fields of a partial upload; None when the request leaves a field
      out. */
  datatype LogoUpload = LogoUpload(file: Option<string>, altText: Option<string>)

  /** A new `SiteLogo()` before the upload is applied. */
  const NewLogo := Logo("", "Site Logo")

  /** A partial update: the fields present replace the instance's. */
  function ApplyUpload(logo: Logo, upload: LogoUpload): (r: Logo)
    ensures r.file == (if upload.file.Some? then upload.file.value else logo.file)
    ensures r.altText == (if upload.altText.Some? then upload.altText.value else logo.altText)
  {
    Logo(if upload.file.Some? then upload.file.value else logo.file,
         if upload.altText.Some? then upload.altText.value else logo.altText)
  }

  /** `SiteLogoViewSet.create`: updates the current logo, or saves a new
      one, which empties the table first. `valid` is the serializer's
      verdict. Returns the HTTP status. */
  method CreateLogo(table: Models.SingletonTable<Logo>, upload: LogoUpload, valid: bool) returns (status: int)
    requires table.Valid()
    modifies table
    ensures table.Valid()
    ensures !valid ==> status == 400 && table.rows == old(table.rows) && table.nextPk == old(table.nextPk)
    ensures valid ==> status == 201
    ensures valid && |old(table.rows)| <= 1 ==> |table.rows| == 1
    ensures valid && old(table.rows) == [] ==> table.rows == [Models.Row(old(table.nextPk), ApplyUpload(NewLogo, upload))]
    ensures valid && old(table.rows) == [] ==> table.nextPk == old(table.nextPk) + 1
    ensures valid && old(table.rows) != [] ==>
              var first := Models.FirstRow(old(table.rows)).value;
              var saved := Models.SaveSingleton(old(table.rows), old(table.nextPk), Some(first.pk),
                                                ApplyUpload(first.data, upload));
              table.rows == saved.rows && table.nextPk == saved.nextPk
  {
    if !valid {
      return 400;
    }
    var current := table.First();
    match current {
      case Some(row) =>
        var _ := table.Save(Some(row.pk), ApplyUpload(row.data, upload));
      case None =>
        var _ := table.Save(None, ApplyUpload(NewLogo, upload));
    }
    status := 201;
  }

  // ---------------------------------------------------------------------
  // CustomLoginView.get_success_url
  // ---------------------------------------------------------------------

  const Dashboard := "/dashboard/"

  /** As written: the `next` parameter whenever it is non-empty. */
  function SuccessUrlAsWritten(next: Option<string>): (r: string)
    ensures Truthy(next) ==> r == next.value
    ensures !Truthy(next) ==> r == Dashboard
  {
    if Truthy(next) then next.value else Dashboard
  }

  /** A path on this site: one leading slash, not a scheme-relative `//`
      or `/\` URL. */
  predicate IsLocalPath(url: string)
  {
    StartsWith(url, "/") && !StartsWith(url, "//") && !StartsWith(url, "/\\")
  }

  /** As intended: `next` only when it stays on this site. */
  function SuccessUrl(next: Option<string>): (r: string)
    ensures IsLocalPath(r)
    ensures Truthy(next) && IsLocalPath(next.value) ==> r == next.value
    ensures !(Truthy(next) && IsLocalPath(next.value)) ==> r == Dashboard
  {
    assert Dashboard[..1] == "/" && Dashboard[1] == 'd';
    if Truthy(next) && IsLocalPath(next.value) then next.value else Dashboard
  }

  /** The code as written sends a user to any site named in `next`. */
  lemma SuccessUrlOpenRedirect()
    ensures SuccessUrlAsWritten(Some("https://attacker.example/")) == "https://attacker.example/"
    ensures !IsLocalPath(SuccessUrlAsWritten(Some("https://attacker.example/")))
    ensures SuccessUrl(Some("https://attacker.example/")) == Dashboard
  {
    assert "https://attacker.example/"[0] == 'h';
  }
}
