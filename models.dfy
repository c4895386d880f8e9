/** The save rules of the content models (content/models.py): slug
    generation, the reading-time estimate, the publish timestamp, the review
    timestamp of a job application, notice expiry and the two singleton
    tables (site logo, site configuration).

    Each model instance whose `save` updates its own fields is a class whose
    `Save` method changes only that instance; the other rows of its table,
    the clock and Django's `slugify` are parameters. */
module Models {
  import opened Common
  import Slugs

  /** A point in time (`timezone.now()`), in any fixed unit. */
  type Time = int

  /** A calendar day (`timezone.now().date()`), as a day number. */
  type Date = int

  // ---------------------------------------------------------------------
  // Slugs
  // ---------------------------------------------------------------------

  /** What the slug loop reads of another row of the same table. */
  datatype SlugRow = SlugRow(pk: nat, slug: string)

  /** The slugs `Model.objects.filter(slug=..).exclude(pk=self.pk)` can
      find: every row's slug except the row being saved. For an unsaved
      instance the pk is `None` and `exclude(pk=None)` excludes nothing. */
  function OtherSlugs(rows: seq<SlugRow>, pk: Option<nat>): set<string>
  {
    set i | 0 <= i < |rows| && Some(rows[i].pk) != pk :: rows[i].slug
  }

  /** The slug step of `save` for Project, BlogPost, Service, Career and
      Notice: an empty slug becomes the first free candidate built from the
      slugified title; a non-empty slug is kept. */
  method SlugOnSave(slug: string, title: string, pk: Option<nat>, rows: seq<SlugRow>,
                    slugify: string -> string) returns (r: string)
    ensures slug != "" ==> r == slug
    ensures slug == "" ==> Slugs.FirstFree(slugify(title), OtherSlugs(rows, pk), r)
    ensures slug == "" ==> forall i :: 0 <= i < |rows| && Some(rows[i].pk) != pk ==> rows[i].slug != r
  {
    if slug == "" {
      r := Slugs.UniqueSlug(slugify(title), OtherSlugs(rows, pk));
    } else {
      r := slug;
    }
  }

  /** The slug step of the three category models: no uniqueness loop. */
  function CategorySlugOnSave(slug: string, name: string, slugify: string -> string): (r: string)
    ensures slug != "" ==> r == slug
    ensures slug == "" ==> r == slugify(name)
  {
    if slug == "" then slugify(name) else slug
  }

  // ---------------------------------------------------------------------
  // Reading time
  // ---------------------------------------------------------------------

  predicate NoSpace(w: string)
  {
    forall i :: 0 <= i < |w| ==> !IsSpace(w[i])
  }

  /** The longest prefix of `s` without whitespace. */
  function WordPrefix(s: string): (w: string)
    ensures |w| <= |s| && w == s[..|w|] && NoSpace(w)
    ensures |w| < |s| ==> IsSpace(s[|w|])
    ensures s != [] && !IsSpace(s[0]) ==> |w| >= 1
  {
    if s == [] || IsSpace(s[0]) then [] else [s[0]] + WordPrefix(s[1..])
  }

  /** Python's `str.split()` with no argument: the maximal runs of
      non-whitespace characters. */
  function Words(s: string): (r: seq<string>)
    ensures forall i :: 0 <= i < |r| ==> r[i] != [] && NoSpace(r[i])
    decreases |s|
  {
    if s == [] then []
    else if IsSpace(s[0]) then Words(s[1..])
    else
      var w := WordPrefix(s);
      [w] + Words(s[|w|..])
  }

  lemma {:induction false} WordPrefixStops(a: string, t: string)
    requires t != [] && IsSpace(t[0])
    ensures WordPrefix(a + t) == WordPrefix(a)
  {
    if a != [] && !IsSpace(a[0]) {
      assert (a + t)[1..] == a[1..] + t;
      WordPrefixStops(a[1..], t);
    } else if a == [] {
      assert a + t == t;
    }
  }

  /** A whitespace character separates words: the words of `a c b` are
      the words of `a` followed by the words of `b`. */
  lemma {:induction false} WordsAcrossSpace(a: string, c: char, b: string)
    requires IsSpace(c)
    ensures Words(a + [c] + b) == Words(a) + Words(b)
    decreases |a|
  {
    if a == [] {
      WordsAfterSpace([], c, b);
    } else if IsSpace(a[0]) {
      WordsAfterSpace(a, c, b);
      WordsAcrossSpace(a[1..], c, b);
    } else {
      var w := WordPrefix(a);
      WordsAfterFirstWord(a, c, b);
      WordsAcrossSpace(a[|w|..], c, b);
      PrependWord(w, Words(a[|w|..]), Words(b));
    }
  }

  /** Leading whitespace of `a c b` is skipped: with `a` empty the words
      are those of `b`, otherwise those after the first character. */
  lemma WordsAfterSpace(a: string, c: char, b: string)
    requires IsSpace(c) && (a == [] || IsSpace(a[0]))
    ensures a == [] ==> Words(a + [c] + b) == Words(a) + Words(b)
    ensures a != [] ==> Words(a + [c] + b) == Words(a[1..] + [c] + b) && Words(a) == Words(a[1..])
  {
    var s := a + [c] + b;
    if a == [] {
      assert s[1..] == b;
    } else {
      assert s[1..] == a[1..] + [c] + b;
    }
  }

  /** The first word of `a c b`, for `a` starting with a word, is the first
      word of `a`, and the rest follows it. */
  lemma WordsAfterFirstWord(a: string, c: char, b: string)
    requires IsSpace(c) && a != [] && !IsSpace(a[0])
    ensures var w := WordPrefix(a);
            Words(a + [c] + b) == [w] + Words(a[|w|..] + [c] + b) &&
            Words(a) == [w] + Words(a[|w|..])
  {
    var s := a + [c] + b;
    var w := WordPrefix(a);
    assert WordPrefix(s) == w by {
      WordPrefixStops(a, [c] + b);
      assert s == a + ([c] + b);
    }
    assert s[|w|..] == a[|w|..] + [c] + b;
  }

  lemma PrependWord(w: string, x: seq<string>, y: seq<string>)
    ensures [w] + (x + y) == ([w] + x) + y
  {
  }

  /** Whitespace-only text has no words. */
  lemma {:induction false} WordsOfBlank(s: string)
    requires forall i :: 0 <= i < |s| ==> IsSpace(s[i])
    ensures Words(s) == []
  {
    if s != [] {
      WordsOfBlank(s[1..]);
    }
  }

  /** A word without whitespace is its own longest prefix. */
  lemma {:induction false} WordPrefixOfWord(w: string)
    requires NoSpace(w)
    ensures WordPrefix(w) == w
  {
    if w != [] {
      assert forall i :: 0 <= i < |w| - 1 ==> w[1..][i] == w[i + 1];
      WordPrefixOfWord(w[1..]);
    }
  }

  /** A non-empty run of non-whitespace characters is one word. With
      `WordsAcrossSpace` and `WordsOfBlank` this fixes `split()` on every
      string. */
  lemma WordsOfWord(w: string)
    requires w != [] && NoSpace(w)
    ensures Words(w) == [w]
  {
    WordPrefixOfWord(w);
    assert w[|w|..] == [];
  }

  /** Python's `round(n / 200)` for a natural number: the nearest integer,
      ties to the even one. */
  function RoundPer200(n: nat): (q: nat)
    ensures 2 * (q * 200 - n) <= 200 && 2 * (n - q * 200) <= 200
    ensures (2 * (q * 200 - n) == 200 || 2 * (n - q * 200) == 200) ==> q % 2 == 0
  {
    var q, rem := n / 200, n % 200;
    if 2 * rem < 200 then q
    else if 2 * rem > 200 then q + 1
    else if q % 2 == 0 then q
    else q + 1
  }

  /** The rounded quotient is the only integer that satisfies the
      nearest, ties-to-even rule. */
  lemma RoundPer200Unique(n: nat, q': int)
    requires 2 * (q' * 200 - n) <= 200 && 2 * (n - q' * 200) <= 200
    requires (2 * (q' * 200 - n) == 200 || 2 * (n - q' * 200) == 200) ==> q' % 2 == 0
    ensures q' == RoundPer200(n)
  {
    var q := RoundPer200(n);
    if q' != q {
      // both lie within half a step of n / 200, so they are neighbours
      // exactly halfway on either side, and both would have to be even
      assert false;
    }
  }

  /** `max(1, round(words / 200))`: one minute up to 100 words (100 words
      is a tie that rounds to the even 0); beyond that the nearest whole
      number of minutes, ties to the even one. */
  function ReadingMinutes(content: string): (m: nat)
    ensures m >= 1
    ensures |Words(content)| <= 100 ==> m == 1
    ensures |Words(content)| > 100 ==>
              2 * (m * 200 - |Words(content)|) <= 200 && 2 * (|Words(content)| - m * 200) <= 200
    ensures |Words(content)| > 100 &&
            (2 * (m * 200 - |Words(content)|) == 200 || 2 * (|Words(content)| - m * 200) == 200) ==>
              m % 2 == 0
  {
    var q := RoundPer200(|Words(content)|);
    if q < 1 then 1 else q
  }

  /** The reading-time step of BlogPost.save and Service.save: recomputed
      from non-empty content, left as it was otherwise. */
  function ReadingTimeOnSave(content: string, previous: Option<nat>): (r: Option<nat>)
    ensures content == "" ==> r == previous
    ensures content != "" ==> r.Some? && r.value >= 1
  {
    if content != "" then Some(ReadingMinutes(content)) else previous
  }

  /** 500 words is a tie between 2 and 3 minutes, which rounds to the
      even 2. */
  lemma TieRoundsToEven(content: string)
    requires |Words(content)| == 500
    ensures ReadingMinutes(content) == 2
  {
  }

  /** Whitespace-only content counts as one minute of reading. */
  lemma BlankContentReadsInOneMinute(content: string)
    requires content != [] && forall i :: 0 <= i < |content| ==> IsSpace(content[i])
    ensures ReadingTimeOnSave(content, None) == Some(1)
  {
    WordsOfBlank(content);
  }

  // ---------------------------------------------------------------------
  // Publish and review timestamps
  // ---------------------------------------------------------------------

  /** The status that means "live": "published" for BlogPost, Service and
      Notice, "active" for Career. */
  const Published := "published"
  const Active := "active"
  const Pending := "pending"

  /** The `published_at` step of save. After save the timestamp is empty
      exactly when the record is not live; a live record keeps an existing
      timestamp and otherwise gets now. */
  function PublishedAtOnSave(status: string, liveStatus: string, previous: Option<Time>, now: Time): (r: Option<Time>)
    ensures r.None? <==> status != liveStatus
    ensures status == liveStatus && previous.Some? ==> r == previous
    ensures status == liveStatus && previous.None? ==> r == Some(now)
  {
    if status == liveStatus && previous.None? then Some(now)
    else if status != liveStatus then None
    else previous
  }

  /** Saving again, at any later time, does not move the timestamp. */
  lemma PublishedAtStable(status: string, liveStatus: string, previous: Option<Time>, now: Time, later: Time)
    ensures PublishedAtOnSave(status, liveStatus, PublishedAtOnSave(status, liveStatus, previous, now), later)
         == PublishedAtOnSave(status, liveStatus, previous, now)
  {
  }

  /** Unpublishing and publishing again stamps the new time. */
  lemma RepublishStampsAgain(liveStatus: string, other: string, previous: Option<Time>, t1: Time, t2: Time)
    requires other != liveStatus
    ensures PublishedAtOnSave(liveStatus, liveStatus, PublishedAtOnSave(other, liveStatus, previous, t1), t2) == Some(t2)
  {
  }

  /** The `reviewed_at` step of JobApplication.save for a stored row. The
      review time changes only when a pending application leaves "pending"
      without a review time, and then it becomes now; once set it never
      changes. */
  function ReviewedAtOnSave(storedStatus: string, status: string, previous: Option<Time>, now: Time): (r: Option<Time>)
    ensures r != previous <==> storedStatus == Pending && status != Pending && previous.None?
    ensures r != previous ==> r == Some(now)
    ensures previous.Some? ==> r == previous
  {
    if storedStatus == Pending && status != Pending && previous.None? then Some(now) else previous
  }

  // ---------------------------------------------------------------------
  // Expiry
  // ---------------------------------------------------------------------

  /** Whether a deadline has passed: shared by `Notice.is_expired` and
      `CareerSerializer.get_is_expired`. Without a deadline nothing expires;
      with one, expiry starts the day after it. */
  function PastDeadline(deadline: Option<Date>, today: Date): (expired: bool)
    ensures deadline.None? ==> !expired
    ensures deadline.Some? ==> (expired <==> today >= deadline.value + 1)
  {
    deadline.Some? && today > deadline.value
  }

  /** Once expired, a deadline stays expired. */
  lemma PastDeadlineMonotone(deadline: Option<Date>, today: Date, later: Date)
    requires PastDeadline(deadline, today) && today <= later
    ensures PastDeadline(deadline, later)
  {
  }

  // ---------------------------------------------------------------------
  // Instances
  // ---------------------------------------------------------------------

  class ProjectCategory {
    var name: string
    var slug: string

    /** `ProjectCategory.save`: an empty slug becomes `slugify(name)`.
        BlogCategory.save and ServiceCategory.save are the same rule. */
    method Save(slugify: string -> string)
      modifies this
      ensures name == old(name)
      ensures slug == CategorySlugOnSave(old(slug), name, slugify)
    {
      slug := CategorySlugOnSave(slug, name, slugify);
    }
  }

  class Project {
    var pk: Option<nat>
    var title: string
    var slug: string

    /** `Project.save`; `rows` is the rest of the project table. */
    method Save(rows: seq<SlugRow>, slugify: string -> string)
      modifies this
      ensures pk == old(pk) && title == old(title)
      ensures old(slug) != "" ==> slug == old(slug)
      ensures old(slug) == "" ==> Slugs.FirstFree(slugify(title), OtherSlugs(rows, pk), slug)
    {
      slug := SlugOnSave(slug, title, pk, rows, slugify);
    }
  }

  class BlogPost {
    var pk: Option<nat>
    var title: string
    var slug: string
    var content: string
    var status: string
    var readingTime: Option<nat>
    var publishedAt: Option<Time>

    /** `BlogPost.save`: slug, reading time, then publish timestamp. */
    method Save(rows: seq<SlugRow>, now: Time, slugify: string -> string)
      modifies this
      ensures pk == old(pk) && title == old(title) && content == old(content) && status == old(status)
      ensures old(slug) != "" ==> slug == old(slug)
      ensures old(slug) == "" ==> Slugs.FirstFree(slugify(title), OtherSlugs(rows, pk), slug)
      ensures readingTime == ReadingTimeOnSave(content, old(readingTime))
      ensures publishedAt == PublishedAtOnSave(status, Published, old(publishedAt), now)
    {
      slug := SlugOnSave(slug, title, pk, rows, slugify);
      readingTime := ReadingTimeOnSave(content, readingTime);
      publishedAt := PublishedAtOnSave(status, Published, publishedAt, now);
    }
  }

  class Service {
    var pk: Option<nat>
    var title: string
    var slug: string
    var content: string
    var status: string
    var readingTime: Option<nat>
    var publishedAt: Option<Time>

    /** `Service.save`: the same three steps as `BlogPost.save`. */
    method Save(rows: seq<SlugRow>, now: Time, slugify: string -> string)
      modifies this
      ensures pk == old(pk) && title == old(title) && content == old(content) && status == old(status)
      ensures old(slug) != "" ==> slug == old(slug)
      ensures old(slug) == "" ==> Slugs.FirstFree(slugify(title), OtherSlugs(rows, pk), slug)
      ensures readingTime == ReadingTimeOnSave(content, old(readingTime))
      ensures publishedAt == PublishedAtOnSave(status, Published, old(publishedAt), now)
    {
      slug := SlugOnSave(slug, title, pk, rows, slugify);
      readingTime := ReadingTimeOnSave(content, readingTime);
      publishedAt := PublishedAtOnSave(status, Published, publishedAt, now);
    }
  }

  class Career {
    var pk: Option<nat>
    var title: string
    var slug: string
    var status: string
    var publishedAt: Option<Time>

    /** `Career.save`: slug, then the publish timestamp keyed on "active". */
    method Save(rows: seq<SlugRow>, now: Time, slugify: string -> string)
      modifies this
      ensures pk == old(pk) && title == old(title) && status == old(status)
      ensures old(slug) != "" ==> slug == old(slug)
      ensures old(slug) == "" ==> Slugs.FirstFree(slugify(title), OtherSlugs(rows, pk), slug)
      ensures publishedAt == PublishedAtOnSave(status, Active, old(publishedAt), now)
    {
      slug := SlugOnSave(slug, title, pk, rows, slugify);
      publishedAt := PublishedAtOnSave(status, Active, publishedAt, now);
    }
  }

  class Notice {
    var pk: Option<nat>
    var title: string
    var slug: string
    var status: string
    var publishedAt: Option<Time>
    var expiryDate: Option<Date>

    /** `Notice.save`: slug, then the publish timestamp. */
    method Save(rows: seq<SlugRow>, now: Time, slugify: string -> string)
      modifies this
      ensures pk == old(pk) && title == old(title) && status == old(status) && expiryDate == old(expiryDate)
      ensures old(slug) != "" ==> slug == old(slug)
      ensures old(slug) == "" ==> Slugs.FirstFree(slugify(title), OtherSlugs(rows, pk), slug)
      ensures publishedAt == PublishedAtOnSave(status, Published, old(publishedAt), now)
    {
      slug := SlugOnSave(slug, title, pk, rows, slugify);
      publishedAt := PublishedAtOnSave(status, Published, publishedAt, now);
    }

    /** `Notice.is_expired`. */
    predicate IsExpired(today: Date)
      reads this
    {
      PastDeadline(expiryDate, today)
    }
  }

  class JobApplication {
    var pk: Option<nat>
    var status: string
    var adminNotes: string
    var reviewedAt: Option<Time>

    /** `JobApplication.save`. `stored` maps each stored application's pk to
        its stored status. A saved instance (a truthy pk) whose row is
        missing makes `objects.get` raise: the result is false and nothing
        changes. A missing key or the key 0 skips the lookup. */
    method Save(stored: map<nat, string>, now: Time) returns (ok: bool)
      modifies this
      ensures pk == old(pk) && status == old(status) && adminNotes == old(adminNotes)
      ensures ok <==> !HasPk(pk) || pk.value in stored
      ensures !ok ==> reviewedAt == old(reviewedAt)
      ensures !HasPk(pk) ==> reviewedAt == old(reviewedAt)
      ensures ok && HasPk(pk) ==> reviewedAt == ReviewedAtOnSave(stored[pk.value], status, old(reviewedAt), now)
    {
      if HasPk(pk) {
        if pk.value !in stored {
          return false;
        }
        reviewedAt := ReviewedAtOnSave(stored[pk.value], status, reviewedAt, now);
      }
      ok := true;
    }
  }

  // ---------------------------------------------------------------------
  // Singleton tables: SiteLogo and SiteConfig
  // ---------------------------------------------------------------------

  datatype Row<T> = Row(pk: nat, data: T)

  /** Primary keys are unique and below the next key the table hands out. */
  predicate WellKeyed<T>(rows: seq<Row<T>>, nextPk: nat)
  {
    (forall i :: 0 <= i < |rows| ==> rows[i].pk < nextPk) &&
    (forall i, j :: 0 <= i < j < |rows| ==> rows[i].pk != rows[j].pk)
  }

  function IndexOfPk<T>(rows: seq<Row<T>>, pk: nat): (r: Option<nat>)
    ensures r.Some? ==> r.value < |rows| && rows[r.value].pk == pk
    ensures r.None? ==> forall i :: 0 <= i < |rows| ==> rows[i].pk != pk
  {
    if rows == [] then None
    else if rows[|rows| - 1].pk == pk then Some(|rows| - 1)
    else IndexOfPk(rows[..|rows| - 1], pk)
  }

  datatype Saved<T> = Saved(rows: seq<Row<T>>, nextPk: nat, pk: nat)

  /** `if self.pk:` — Python reads a missing key and the key 0 alike as
      false. */
  predicate HasPk(pk: Option<nat>)
  {
    pk.Some? && pk.value != 0
  }

  /** `save` of SiteLogo or SiteConfig. Without a (truthy) pk, every
      existing row is deleted and the instance is inserted, under a fresh
      key or under its key 0. With a pk, the row holding that key is
      updated and every other row is kept, or the instance is appended
      under that key when no row holds it. */
  function SaveSingleton<T>(rows: seq<Row<T>>, nextPk: nat, pk: Option<nat>, data: T): (r: Saved<T>)
    ensures !HasPk(pk) ==> r.rows == [Row(r.pk, data)]
    ensures pk.None? ==> r.pk == nextPk && r.nextPk == nextPk + 1
    ensures pk.Some? ==> r.pk == pk.value && r.nextPk == (if pk.value + 1 > nextPk then pk.value + 1 else nextPk)
    ensures exists i :: 0 <= i < |r.rows| && r.rows[i] == Row(r.pk, data)
    ensures HasPk(pk) && IndexOfPk(rows, pk.value).Some? ==>
              r.rows == rows[IndexOfPk(rows, pk.value).value := Row(pk.value, data)]
    ensures HasPk(pk) && IndexOfPk(rows, pk.value).None? ==> r.rows == rows + [Row(pk.value, data)]
  {
    match pk
    case None =>
      var r := Saved([Row(nextPk, data)], nextPk + 1, nextPk);
      assert r.rows[0] == Row(nextPk, data);
      r
    case Some(k) =>
      var next := if k + 1 > nextPk then k + 1 else nextPk;
      if k == 0 then
        var r := Saved([Row(0, data)], next, 0);
        assert r.rows[0] == Row(0, data);
        r
      else
        match IndexOfPk(rows, k)
        case Some(i) =>
          var r := Saved(rows[i := Row(k, data)], next, k);
          assert r.rows[i] == Row(k, data);
          r
        case None =>
          var r := Saved(rows + [Row(k, data)], next, k);
          assert r.rows[|rows|] == Row(k, data);
          r
  }

  /** A save with a pk replaces the row holding that key and keeps every
      other row where it was. */
  lemma SaveSingletonKeepsOthers<T>(rows: seq<Row<T>>, nextPk: nat, k: nat, data: T)
    requires k != 0 && WellKeyed(rows, nextPk)
    ensures var r := SaveSingleton(rows, nextPk, Some(k), data).rows;
            |r| >= |rows| &&
            (forall i :: 0 <= i < |rows| && rows[i].pk != k ==> r[i] == rows[i]) &&
            (forall i :: 0 <= i < |r| && r[i].pk == k ==> r[i] == Row(k, data))
  {
  }

  /** Saving keeps keys unique, and a save without a pk leaves exactly one
      row whatever the table held before. */
  lemma SaveSingletonWellKeyed<T>(rows: seq<Row<T>>, nextPk: nat, pk: Option<nat>, data: T)
    requires WellKeyed(rows, nextPk)
    ensures WellKeyed(SaveSingleton(rows, nextPk, pk, data).rows, SaveSingleton(rows, nextPk, pk, data).nextPk)
  {
    var r := SaveSingleton(rows, nextPk, pk, data);
    if HasPk(pk) {
      var k := pk.value;
      assert forall i :: 0 <= i < |rows| ==> rows[i].pk < r.nextPk;
      match IndexOfPk(rows, k)
      case Some(i) =>
        assert r.rows == rows[i := Row(k, data)];
      case None =>
        assert r.rows == rows + [Row(k, data)];
    }
  }

  /** `Model.objects.first()` on a table without an ordering: the row with
      the smallest primary key. */
  function FirstRow<T>(rows: seq<Row<T>>): (r: Option<Row<T>>)
    ensures r.None? <==> rows == []
    ensures r.Some? ==> (exists i :: 0 <= i < |rows| && rows[i] == r.value) &&
                        forall i :: 0 <= i < |rows| ==> r.value.pk <= rows[i].pk
  {
    if rows == [] then None
    else
      match FirstRow(rows[1..])
      case None => Some(rows[0])
      case Some(rest) => if rows[0].pk <= rest.pk then Some(rows[0]) else Some(rest)
  }

  datatype Got<T> = Got(saved: Saved<T>, row: Row<T>)

  /** `SiteConfig.get_config` as written: `get_or_create(pk=1)`. */
  function GetConfigAsWritten<T>(rows: seq<Row<T>>, nextPk: nat, default: T): (r: Got<T>)
    ensures r.row.pk == 1
    ensures exists i :: 0 <= i < |r.saved.rows| && r.saved.rows[i] == r.row
    ensures IndexOfPk(rows, 1).Some? ==>
              r.saved.rows == rows && r.row == rows[IndexOfPk(rows, 1).value]
    ensures IndexOfPk(rows, 1).None? ==> r.saved.rows == rows + [Row(1, default)] && r.row == Row(1, default)
  {
    match IndexOfPk(rows, 1)
    case Some(i) => Got(Saved(rows, nextPk, 1), rows[i])
    case None =>
      var s := SaveSingleton(rows, nextPk, Some(1), default);
      Got(s, Row(1, default))
  }

  /** A configuration saved from the admin site gets a fresh key; once that
      key is not 1, `get_config` inserts a second row. */
  lemma GetConfigAsWrittenBreaksSingleton<T>(config: T, default: T)
    ensures var rows := SaveSingleton([Row(1, config)], 2, None, config).rows;
            |rows| == 1 && |GetConfigAsWritten(rows, 3, default).saved.rows| == 2
  {
    var rows := SaveSingleton([Row(1, config)], 2, None, config).rows;
    assert rows == [Row(2, config)];
    assert IndexOfPk(rows, 1).None?;
  }

  /** `get_config` as intended: the existing configuration whatever its key,
      and a new one (saved without a pk) only when there is none. */
  function GetConfig<T>(rows: seq<Row<T>>, nextPk: nat, default: T): (r: Got<T>)
    ensures rows != [] ==> r.saved.rows == rows && Some(r.row) == FirstRow(rows)
    ensures rows == [] ==> r.saved.rows == [r.row] && r.row.data == default
    ensures exists i :: 0 <= i < |r.saved.rows| && r.saved.rows[i] == r.row
  {
    match FirstRow(rows)
    case Some(row) => Got(Saved(rows, nextPk, row.pk), row)
    case None =>
      var s := SaveSingleton(rows, nextPk, None, default);
      Got(s, s.rows[0])
  }

  /** The intended `get_config` never adds a second row. */
  lemma GetConfigKeepsSingleton<T>(rows: seq<Row<T>>, nextPk: nat, default: T)
    requires |rows| <= 1
    ensures |GetConfig(rows, nextPk, default).saved.rows| == 1
  {
  }

  /** A SiteLogo or SiteConfig table. */
  class SingletonTable<T> {
    var rows: seq<Row<T>>
    var nextPk: nat

    ghost predicate Valid()
      reads this
    {
      WellKeyed(rows, nextPk)
    }

    constructor ()
      ensures Valid() && rows == []
    {
      rows := [];
      nextPk := 1;
    }

    /** `SiteLogo.save` / `SiteConfig.save` (the old file's removal from
        storage is not modelled). */
    method Save(pk: Option<nat>, data: T) returns (key: nat)
      requires Valid()
      modifies this
      ensures Valid()
      ensures Saved(rows, nextPk, key) == SaveSingleton(old(rows), old(nextPk), pk, data)
      ensures !HasPk(pk) ==> |rows| == 1
    {
      SaveSingletonWellKeyed(rows, nextPk, pk, data);
      var s := SaveSingleton(rows, nextPk, pk, data);
      rows, nextPk, key := s.rows, s.nextPk, s.pk;
    }

    /** `SiteLogo.get_logo`: `objects.first()`. */
    function First(): (r: Option<Row<T>>)
      reads this
      ensures r == FirstRow(rows)
    {
      FirstRow(rows)
    }
  }
}
