# Construction CMS backend: save rules, request decisions and validators

This project models the sequential business logic of the Django REST backend of a construction-company content management system. It covers four areas:

- **Model save rules** (`content/models.py`):
  - the unique-slug loop of Project, BlogPost, Service, Career and Notice;
  - the slug rule of the category models;
  - the reading-time estimate;
  - the publish-timestamp rule, keyed on "published", or on "active" for Career;
  - the review timestamp of a job application;
  - notice and career expiry;
  - the SiteLogo and SiteConfig singleton tables.
- **Request decisions** (`content/views.py`):
  - the per-action permission tables and the two permission classes;
  - every `get_queryset` filter, including the comma-separated tag filter;
  - `by_slug`, `increment_view` and `update_status`;
  - the site-logo upload;
  - the login redirect target.
- **Serializer checks** (`content/serializers.py`):
  - the resume extension and size checks;
  - the banner video requirement;
  - title uniqueness;
  - the file-field-to-URL mapping of the `to_representation` methods.
- **The `flatpage` route** (`cmspro/urls.py`): the traversal guard and template-name normalisation.

Modules:

- `Common` (common.dfy): `Option`, sequence filtering, and Python's string operations. These are `strip`, `split(",")`, `lower` (ASCII), `in` on strings, `startswith` and `endswith`.
- `Slugs` (slugs.dfy): the slug loop, which is a `while` loop, proved to terminate and to return the first free candidate.
- `Models` (models.dfy):
  - the save rules, as functions;
  - the model instances whose `save` updates their own fields, as classes with `modifies this`;
  - the singleton tables, as a class over a sequence of rows.
- `Serializers` (serializers.dfy): the validators, plus the URL mapping with its loop over the About image fields.
- `Urls` (urls.dfy): `flatpage`.
- `Views` (views.dfy):
  - the permission tables;
  - querysets as sequences of rows, where each `.filter` is a sequence filter;
  - the view-count table as a class;
  - `update_status` over a `Models.JobApplication` instance;
  - the logo upload over a `Models.SingletonTable`.

The database, the clock, `slugify`, file storage URL resolution and `request.build_absolute_uri` are parameters:

- another table's rows are a `seq`;
- "now" and "today" are integers;
- `slugify`, the storage lookup and the absolute-URI builder are functions passed in.

Where the code and its own comments or docstrings disagree, the model follows the code. In particular, `IsAdmin` asks only for an authenticated user, not for staff. An overridden `get_permissions` also overrules the `permission_classes` of an `@action` decorator, as the first finding shows.

## Model

| member | source | states |
|---|---|---|
| Slugs.UniqueSlug | content/models.py:117-126 | the loop terminates for every finite set of slugs used by other rows. Its result is used by no other row, and it is the first of `base`, `base-1`, `base-2`, … that is free |
| Slugs.ParseNatToString | content/models.py:123 | the counter's decimal text reads back as the counter |
| Slugs.CandidateInjective | content/models.py:120-124 | no candidate is tried twice: different counters give different candidates |
| Slugs.FirstFreeUnique | content/models.py:117-126 | for a given base and set of used slugs, there is only one first free candidate |
| Slugs.FirstFreeIsBase | content/models.py:119-121 | the slugified title is kept as it is exactly when no other row uses it |
| Slugs.FirstFreeSuffixed | content/models.py:121-123 | if the base is taken, the slug is `base-k` for some k ≥ 1 |
| Models.SlugOnSave | content/models.py:286-294 | a non-empty slug is kept. An empty one becomes the first free candidate among the other rows' slugs and collides with none of them. An unsaved instance (no pk) is compared with every row |
| Models.CategorySlugOnSave | content/models.py:79-82 | an empty slug becomes `slugify(name)`; a non-empty one is untouched |
| Models.ProjectCategory.Save | content/models.py:79-82 | updates only the slug, by the category rule (the same rule as BlogCategory and ServiceCategory) |
| Models.Project.Save | content/models.py:117-126 | pk and title unchanged; a non-empty slug kept, an empty one replaced by the first free candidate |
| Models.BlogPost.Save | content/models.py:286-307 | the slug, reading-time and publish-timestamp rules, in that order; pk, title, content and status unchanged |
| Models.Service.Save | content/models.py:372-391 | the same three rules as BlogPost.save |
| Models.Career.Save | content/models.py:562-577 | the slug rule, then the publish-timestamp rule keyed on "active" |
| Models.Notice.Save | content/models.py:631-646 | the slug rule and the publish-timestamp rule; the expiry date unchanged |
| Models.Words | content/models.py:298 | `content.split()`: every word is non-empty and contains no whitespace |
| Models.WordsAcrossSpace | content/models.py:298 | a whitespace character separates words: the words of `a + [c] + b` are the words of `a` followed by the words of `b` |
| Models.WordsOfBlank | content/models.py:298 | whitespace-only content has no words |
| Models.WordsOfWord | content/models.py:298 | a non-empty run without whitespace is exactly one word; with the two lemmas above this fixes `split()` on every string |
| Models.RoundPer200 | content/models.py:299 | `round(n / 200)`: within half a step of n/200, and even on a tie |
| Models.RoundPer200Unique | content/models.py:299 | only one integer satisfies the nearest, ties-to-even rule |
| Models.ReadingMinutes | content/models.py:297-299 | 1 for up to 100 words (100 is a tie that rounds to 0). Beyond that, the whole number within half a minute of words/200, the even one on a tie |
| Models.TieRoundsToEven | content/models.py:299 | 500 words read in 2 minutes, as Python's `round(2.5)` gives |
| Models.ReadingTimeOnSave | content/models.py:382-384 | empty content leaves the field as it was; other content sets it to at least 1 |
| Models.BlankContentReadsInOneMinute | content/models.py:297-299 | non-empty, whitespace-only content gives one minute |
| Models.PublishedAtOnSave | content/models.py:302-305 | after save, the timestamp is empty iff the status is not the live one. A live record keeps an existing timestamp, or gets now |
| Models.PublishedAtStable | content/models.py:386-389 | saving again at any later time leaves the timestamp as it is |
| Models.RepublishStampsAgain | content/models.py:641-644 | unpublishing and then publishing again stamps the new time |
| Models.ReviewedAtOnSave | content/models.py:710-716 | the review time changes iff the stored status is "pending", the new status is not, and no review time is set; it then becomes now. Once set, it never changes |
| Models.JobApplication.Save | content/models.py:710-716 | an instance with a truthy pk whose row is missing fails and changes nothing. A missing key or the key 0 skips the lookup and keeps `reviewed_at`. Otherwise only `reviewed_at` changes, by the review rule against the stored status |
| Models.PastDeadline | content/models.py:648-653 | without a date, nothing expires. With one, the record is expired iff today is after that date; `get_is_expired` of a career (content/serializers.py:581-587) applies the same rule to the application deadline |
| Models.PastDeadlineMonotone | content/models.py:648-653 | once expired, a record stays expired on every later day |
| Models.SaveSingleton | content/models.py:404-416 | a save without a truthy pk (none, or 0) leaves exactly one row, the new one. A save with a pk replaces the row holding that key in place, or appends the row when no row holds it. The next key is the larger of one past the used key and the previous next key |
| Models.SaveSingletonKeepsOthers | content/models.py:404-416 | a save with a pk keeps every row with another key where it was, and every row with that key holds the new data |
| Models.SaveSingletonWellKeyed | content/models.py:489-493 | saving keeps primary keys unique and below the next key handed out |
| Models.SingletonTable.Save | content/models.py:479-493 | the table after save is what SaveSingleton gives; without a truthy pk, one row remains |
| Models.FirstRow | content/models.py:423-426 | `objects.first()`: none iff the table is empty, otherwise the row with the smallest key |
| Models.GetConfigAsWritten | content/models.py:501-505 | `get_or_create(pk=1)`: an existing row 1 is returned and the table is left alone; otherwise `Row(1, default)` is appended and returned |
| Models.GetConfigAsWrittenBreaksSingleton | content/models.py:501-505 | after a configuration is saved without a pk, get_config as written leaves two rows |
| Models.GetConfig | content/models.py:501-505 | returns the existing configuration when there is one, leaving the table unchanged; otherwise it creates one with the defaults |
| Models.GetConfigKeepsSingleton | content/models.py:501-505 | the corrected get_config keeps a table of at most one row at exactly one row |
| Common.SplitHasNoSep | content/views.py:216 | no piece of `split(",")` contains a comma |
| Common.SplitAtSep | content/views.py:216 | splitting at a separator splits the two halves independently |
| Common.JoinSplit | content/views.py:216 | joining the pieces of `split(",")` restores the string |
| Common.SplitJoin | content/views.py:216 | splitting comma-free pieces joined with commas gives the pieces back |
| Common.TrimStart | content/views.py:216 | a suffix of the input with no leading whitespace |
| Common.TrimStartRemovesSpace | content/views.py:216 | everything `TrimStart` removes is whitespace |
| Common.TrimEnd | content/views.py:216 | a prefix of the input with no trailing whitespace |
| Common.TrimEndRemovesSpace | content/views.py:216 | everything `TrimEnd` removes is whitespace |
| Common.StripIsTrimmedSlice | content/views.py:216 | `strip()` keeps the contiguous piece after the leading whitespace, removes only whitespace before and after it, and leaves no whitespace at either end |
| Common.ContainsAt | content/views.py:218 | substring containment holds iff the substring occurs at some index |
| Views.PermissionClasses | content/views.py:147-158 | IsAdminOrReadOnly allows every safe method, and other methods only for authenticated users. IsAdmin admits non-staff accounts, while IsAdminUser does not |
| Views.PublicReadTables | content/views.py:194-198 | for BlogPost, Project, Service, the three category viewsets, Client and SiteLogo, an action is allowed iff it is list or retrieve or the user is authenticated |
| Views.CreateOnlyTables | content/views.py:375-379 | for Lead and JobApplication, an action is allowed iff it is create or the user is authenticated |
| Views.PermissionDifferences | content/views.py:221-234 | the code as written and the decorators' intent differ only where an overridden get_permissions meets a decorated action |
| Views.DecoratorsRespected | content/views.py:221-234 | read as the decorators declare it, a decorated action is guarded by its own permission classes and every other action as written |
| Views.DecoratorsOverruled | content/views.py:234-241 | as written, the public `by_slug` and `completed` actions refuse anonymous readers, and `mark_all_read` admits a non-staff account. The decorators' intent is the opposite in each case |
| Views.TagList | content/views.py:216 | every item is non-empty, comma-free and has no whitespace at either end |
| Views.StrippedItemsConcat | content/views.py:216 | the comprehension over two lists of pieces is the concatenation of the two |
| Views.TagListAcrossComma | content/views.py:216 | a comma separates the tags of its two sides: the tags of `a,b` are those of `a` followed by those of `b` |
| Views.TagListOfPiece | content/views.py:216 | a comma-free piece gives its stripped text as the one tag, or none when blank; with the lemma above this fixes every tag list |
| Views.TagListOfPadded | content/views.py:215-216 | " a , ,b" gives the tags "a" and "b": padding stripped, blank items dropped |
| Views.StripIsTag | content/views.py:216 | a comma-free piece strips to nothing or to a tag |
| Views.StrippedItemsAreTags | content/views.py:216 | stripping comma-free pieces and dropping the empty ones leaves tags |
| Views.TagListJoin | content/views.py:215-216 | a non-empty list of tags written with commas reads back as the same list |
| Views.PostQueryset | content/views.py:206-219 | keeps, in order, exactly the posts that match: the status, then the category key compared as text ignoring case, then every tag as a case-insensitive substring of the post's tags |
| Views.FilterTags | content/views.py:215-218 | the loop over the tag list leaves exactly the posts, in order, that already matched status and category and contain every tag |
| Views.StatusStep | content/views.py:211-212 | the status filter, applied only when the parameter is truthy, keeps the posts with that status |
| Views.CategoryStep | content/views.py:213-214 | the category filter after the status filter keeps the posts matching both |
| Views.TagStep | content/views.py:217-218 | one more tag filter narrows the result to posts that also contain that tag |
| Views.TagsMatchSubstrings | content/views.py:218 | a tag matches any substring of the tag text, whatever its case: "art" keeps a post tagged "Smart-Home" |
| Views.ProjectQueryset | content/views.py:317-325 | keeps the rows with the given status, and only the featured ones for "true", "True" or "1". Any other flag value leaves the rows unfiltered |
| Views.ProjectBySlug | content/views.py:347-354 | finds a row with the slug, whatever its status, or none exists |
| Views.ServiceQueryset | content/views.py:520-533 | fails iff the category parameter is not a number. Otherwise it keeps exactly the rows that match the status, the category key and the featured flag |
| Views.IdParamOfKey | content/views.py:529-530 | a key's decimal text converts back to that key |
| Views.VisibleTo | content/views.py:437-487 | staff see every row; everyone else sees exactly the active ones. The same rule serves team members, clients (lines 460-464) and service categories (lines 483-487) |
| Views.CareerQueryset | content/views.py:746-759 | keeps exactly the careers that match the status, the job type and the location (a case-insensitive substring) |
| Views.NoticeQueryset | content/views.py:841-851 | keeps exactly the notices that match the status and the priority |
| Views.ApplicationQueryset | content/views.py:927-940 | fails iff the career parameter is not a number. Otherwise it keeps exactly the applications that match the career, the status and the email (a substring) |
| Views.ByCareer | content/views.py:942-953 | None when the route's `career_id` does not convert to a key; otherwise exactly the applications to that career |
| Views.ByCareerIsCareerFilter | content/views.py:949-953 | `by_career` returns what the list filter returns for the same career parameter alone |
| Views.FindLive | content/views.py:241-250 | finds a row with the slug and the live status, or no such row exists |
| Views.FindLiveIsTheRow | content/views.py:788-797 | with unique slugs, the live row with the slug is the one found |
| Views.BumpAddsOneView | content/views.py:243-244 | one more view leaves every key, slug and status as it was. It raises that row's count by one, and the table's total by one |
| Views.ViewCounter.BySlug | content/views.py:241-250 | a live row with the slug gains exactly one view and is returned. Otherwise 404 and the table is unchanged; slugs and keys stay unique |
| Views.ViewCounter.IncrementView | content/views.py:806-811 | returns the old count plus one, and only that row's count changes. For an unknown key: 404 and nothing changes |
| Views.UpdateStatus | content/views.py:971-984 | status changes only for a truthy new status. The notes change whenever the key is present, even when empty. The key is unchanged, and the review time follows the save rule (left as it was for the key 0) |
| Views.ApplyUpload | content/views.py:589-597 | a partial update: fields present in the upload replace the instance's, and the rest are kept |
| Views.CreateLogo | content/views.py:589-597 | an invalid upload gives 400 and changes nothing. A valid one gives 201. It saves the first logo, with the upload applied, under its own key as SaveSingleton does (rows and next key), or creates one under the next key in an empty table. A table with at most one row ends with exactly one |
| Views.SuccessUrlAsWritten | content/views.py:67-72 | `next` when it is non-empty, otherwise "/dashboard/" |
| Views.SuccessUrl | content/views.py:67-72 | always a local path: `next` when it is one, otherwise "/dashboard/" |
| Views.SuccessUrlOpenRedirect | content/views.py:67-72 | as written, a `next` naming another site is returned unchanged |
| Serializers.RFind | content/serializers.py:685 | the index of the last dot, or -1 when there is none |
| Serializers.ValidateResume | content/serializers.py:681-697 | accepted iff the lower-cased suffix from the last dot is .pdf, .doc or .docx and the size is at most 5·1024·1024. The extension error comes first |
| Serializers.SuffixStartsAtLastDot | content/serializers.py:685 | the checked suffix starts at the last dot and contains no other dot |
| Serializers.ExtensionIsAllowedSuffix | content/serializers.py:684-689 | the extension check is the same as asking whether the lower-cased name ends with one of the allowed suffixes after its last dot |
| Serializers.NoDotRejected | content/serializers.py:685-689 | a name without a dot is rejected: its suffix is its last character |
| Serializers.ResumeSizeBoundary | content/serializers.py:692 | exactly 5 MiB is accepted and one byte more is rejected |
| Serializers.ValidateBanner | content/serializers.py:76-85 | valid iff a video comes with the request or is already on the instance |
| Serializers.ValidateTitle | content/serializers.py:364-376 | valid iff every post with the same title is the one being updated |
| Serializers.OwnTitleAccepted | content/serializers.py:370-371 | an update that keeps the post's own title is accepted |
| Serializers.BuildUrl | content/serializers.py:58-67 | null iff there is no file or it has no URL. It raises iff the URL lookup fails with an error other than AttributeError |
| Serializers.BuildUrlIntended | content/serializers.py:58-67 | never raises: a URL, or null when there is no file or the lookup fails |
| Serializers.BuildUrlAsWrittenRaises | content/serializers.py:61-66 | the two agree whenever the code as written does not raise, and a failing storage makes it raise |
| Serializers.WithFileUrl | content/serializers.py:257-268 | sets one field to the URL-or-null and keeps every other field (as the client and site-configuration serializers do) |
| Serializers.BannerRepresentation | content/serializers.py:69-74 | video and poster become URL-or-null, other fields kept; it raises iff either lookup raises |
| Serializers.AboutRepresentation | content/serializers.py:125-142 | each of the five image fields becomes its file's URL or null, other fields are kept, and it raises iff one lookup raises. With no failing lookup, every image field is a URL or null |
| Urls.RStripSlash | cmspro/urls.py:108 | a prefix of the input that does not end in "/"; only slashes are removed |
| Urls.TemplateName | cmspro/urls.py:107-112 | ends with ".html" and never with "/" |
| Urls.Flatpage | cmspro/urls.py:97-116 | 404 for a path containing ".." or starting with "/". Otherwise the normalised template is rendered when it exists, and 404 is returned when it does not |
| Urls.TrailingSlashIgnored | cmspro/urls.py:108 | an extra trailing slash does not change the template name |
| Urls.TemplateNameIdempotent | cmspro/urls.py:107-112 | feeding a produced template name back in gives the same name |
| Urls.Stem | cmspro/urls.py:108-110 | the page without trailing slashes and at most one ".html" is a prefix of the page |
| Urls.AboutPlain | cmspro/urls.py:108-112 | "about" names "about.html" |
| Urls.AboutSlash | cmspro/urls.py:108-112 | "about/" names "about.html" |
| Urls.AboutHtml | cmspro/urls.py:108-112 | "about.html" names itself |
| Urls.AboutHtmlSlash | cmspro/urls.py:108-112 | "about.html/" names "about.html" |
| Urls.AboutVariants | cmspro/urls.py:101-112 | "about", "about/", "about.html" and "about.html/" all name "about.html" |
| Urls.OneHtmlRemoved | cmspro/urls.py:109-110 | only one ".html" is removed |
| Urls.AcceptedTemplateIsRelative | cmspro/urls.py:104-112 | a path that does not start with "/" (as the guard demands) yields a template name whose first character is not "/" |
| Urls.GuardSeesRawPathOnly | cmspro/urls.py:104-112 | the guard checks the raw path: "a." passes, yet it yields "a..html" |

## Left out

- ORM writes other than the singleton tables are not modelled: `objects.filter(...).update`, `delete`, and serializer `save` of ordinary records. File removal from storage (`default_storage.exists/delete`) is left out too.
- Ordering, pagination and the search filters of each viewset are not modelled. Neither are the list actions that only filter by one status or flag: `published`, `completed` and `active`. These appear only in the permission tables.
- Request bodies are assumed to carry strings, so `update_status` with non-string `status` or `admin_notes` values is not modelled.
- Field validation by the serializers (types, lengths, required fields) is one boolean, `valid`, passed to `CreateLogo`.
- Views.CreateLogo: models the body of `SiteLogoViewSet.create` as if it could run. As written it cannot be reached: content/views.py imports `SiteLogoSerializer`, which content/serializers.py does not define, so importing the views module fails; and cmspro/urls.py registers no route for `SiteLogoViewSet`.
- Views.IdParam: accepts only non-empty strings of ASCII digits. Python's `int()` also accepts surrounding spaces, a sign and underscores, so such parameters are modelled as failures.
- Common.Lower: lower-cases ASCII letters only. Python's `lower()` folds every cased letter and can change a string's length.
- Models.RoundPer200: exact integer rounding. Python's float division could round differently only for word counts far beyond realistic content.
- Slugs.UniqueSlug: the slug field's `max_length` is not modelled (an over-long slug is left to the database, which stores or refuses it), and neither is the race between the uniqueness check and the save.
- Views.ViewCounter.IncrementView: `get_object()` applies the list filters of `get_queryset` before the lookup. The model looks the key up in the whole table.
- Models.SingletonTable.Save: the `ObjectDoesNotExist` branch only skips the file cleanup, so it is modelled as an insert under the given key.
- The SiteConfig viewset's `list`, `retrieve`, `update` and `partial_update` all go through get_config; the model captures that get_config through `Models.GetConfig`.
- Views.UpdateStatus: the serializer response is not modelled.
- The positive small-integer field bounds on view counts and reading time are not modelled.
- Declarative admin configuration and migrations are out of scope. So are the auth, session and CSRF views, the dashboard and registration views, schema decorators, URL registration, and the two maintenance scripts.

## Findings

| source | as written | input that shows it | evidently intended | confidence | as-written member | corrected member |
|---|---|---|---|---|---|---|
| content/views.py:194-198 | an overridden `get_permissions` returns IsAdmin for every action other than list/retrieve (or create), so it overrules the `permission_classes` of `@action` decorators | anonymous GET of `/blog-posts/slug/<slug>/` is refused, and `mark_all_read` by a non-staff account is allowed | the decorated actions are public, and `mark_all_read` is staff-only | not executed | Views.DecoratorsOverruled | Views.DecoratorsRespected |
| content/models.py:501-505 | `get_config` is `get_or_create(pk=1)`, while `save` without a pk empties the table and inserts under a fresh key | save a configuration with no pk into a table holding row 1, then call get_config: the table now has two rows | get_config returns the one existing configuration and creates one only when there is none | not executed | Models.GetConfigAsWrittenBreaksSingleton | Models.GetConfigKeepsSingleton |
| content/views.py:67-72 | the login redirect returns the `next` parameter unchecked | `next=https://attacker.example/` | redirect only to a path on this site, falling back to "/dashboard/" | not executed | Views.SuccessUrlOpenRedirect | Views.SuccessUrl |
| content/serializers.py:58-67 | the `hasattr(file, 'url')` test runs outside the `try`, and `hasattr` only swallows AttributeError | a storage whose URL lookup raises any other error for "banners/intro.mp4": the representation raises instead of giving null | any failure of the lookup gives null | not executed | Serializers.BuildUrlAsWrittenRaises | Serializers.BuildUrlIntended |

The representations (`BannerRepresentation`, `WithFileUrl`, `AboutRepresentation`) keep the as-written URL mapping, so that they describe the code as it runs. The corrected mapping is proved to agree with it whenever the code as written does not raise.
