/** Validators and output shaping of the REST serializers
    (content/serializers.py): the resume check of a job application, the
    banner's "video required" rule, blog-title uniqueness, and the mapping of
    file fields to absolute URLs or null. */
module Serializers {
  import opened Common

  /** The outcome of a field or object validator: the value is accepted, or
      a validation error is raised against `field`. */
  datatype Check = Valid | Invalid(field: string, message: string)

  // ---------------------------------------------------------------------
  // JobApplicationSerializer.validate_resume
  // ---------------------------------------------------------------------

  const AllowedExtensions: seq<string> := [".pdf", ".doc", ".docx"]
  const MaxResumeBytes := 5 * 1024 * 1024
  const ExtensionError := "Only PDF, DOC, and DOCX files are allowed for resume."
  const SizeError := "Resume file size should not exceed 5MB."

  /** `s.rfind(c)`: the last index holding `c`, or -1. */
  function RFind(s: string, c: char): (i: int)
    ensures -1 <= i < |s|
    ensures i >= 0 ==> s[i] == c
    ensures forall j :: i < j < |s| ==> s[j] != c
  {
    if s == [] then -1
    else if s[|s| - 1] == c then |s| - 1
    else RFind(s[..|s| - 1], c)
  }

  /** Python's `s[i:]` for `-1 <= i`: a start of -1 counts from the end,
      so it keeps only the last character. */
  function SliceFrom(s: string, i: int): string
    requires -1 <= i <= |s|
  {
    if i >= 0 then s[i..]
    else if s == [] then []
    else s[|s| - 1..]
  }

  /** `value.name.lower()[value.name.rfind('.'):]`. */
  function ResumeExtension(name: string): string
  {
    SliceFrom(Lower(name), RFind(name, '.'))
  }

  /** The lower-cased name ends with one of the accepted extensions. */
  predicate HasAllowedSuffix(name: string)
  {
    EndsWith(Lower(name), ".pdf") || EndsWith(Lower(name), ".doc") || EndsWith(Lower(name), ".docx")
  }

  /** The extension check, then the size check. */
  function ValidateResume(name: string, size: int): (r: Check)
    ensures r == Valid <==> HasAllowedSuffix(name) && size <= MaxResumeBytes
    ensures !HasAllowedSuffix(name) ==> r == Invalid("resume", ExtensionError)
    ensures HasAllowedSuffix(name) && size > MaxResumeBytes ==> r == Invalid("resume", SizeError)
  {
    ExtensionIsAllowedSuffix(name);
    if ResumeExtension(name) !in AllowedExtensions then Invalid("resume", ExtensionError)
    else if size > MaxResumeBytes then Invalid("resume", SizeError)
    else Valid
  }

  /** When the lower-cased name ends with an accepted extension, the last
      dot of the name is where that extension starts. */
  lemma SuffixStartsAtLastDot(name: string, e: string)
    requires e in AllowedExtensions && EndsWith(Lower(name), e)
    ensures ResumeExtension(name) == e
  {
    var low := Lower(name);
    var p := |name| - |e|;
    assert low[p] == e[0] == '.';
    assert name[p] == '.';
    forall j | p < j < |name|
      ensures name[j] != '.'
    {
      assert low[j] == e[j - p] != '.';
    }
    var i := RFind(name, '.');
    assert i == p;
  }

  /** The extension as computed is accepted exactly when the lower-cased
      name ends with ".pdf", ".doc" or ".docx". */
  lemma ExtensionIsAllowedSuffix(name: string)
    ensures ResumeExtension(name) in AllowedExtensions <==> HasAllowedSuffix(name)
  {
    var low := Lower(name);
    var i := RFind(name, '.');
    if ResumeExtension(name) in AllowedExtensions {
      var e := ResumeExtension(name);
      assert i >= 0;
      assert e == low[i..];
      assert EndsWith(low, e);
    } else {
      if EndsWith(low, ".pdf") {
        SuffixStartsAtLastDot(name, ".pdf");
      } else if EndsWith(low, ".doc") {
        SuffixStartsAtLastDot(name, ".doc");
      } else if EndsWith(low, ".docx") {
        SuffixStartsAtLastDot(name, ".docx");
      }
    }
  }

  /** A name without a dot yields its last character (or nothing) as the
      "extension" and is always rejected. */
  lemma NoDotRejected(name: string, size: int)
    requires forall j :: 0 <= j < |name| ==> name[j] != '.'
    ensures ValidateResume(name, size) == Invalid("resume", ExtensionError)
  {
    assert RFind(name, '.') == -1;
    assert |ResumeExtension(name)| <= 1;
  }

  /** Exactly 5 MiB is accepted; one byte more is not. */
  lemma ResumeSizeBoundary(name: string)
    requires HasAllowedSuffix(name)
    ensures ValidateResume(name, MaxResumeBytes) == Valid
    ensures ValidateResume(name, MaxResumeBytes + 1) == Invalid("resume", SizeError)
  {
  }

  // ---------------------------------------------------------------------
  // BannerSerializer.validate
  // ---------------------------------------------------------------------

  const VideoError := "Video file is required for banners."

  /** `incoming` is `attrs.get('video')`; `stored` is the video of the
      banner being updated (None when creating). A file counts only when it
      has a name. */
  function ValidateBanner(incoming: Option<string>, stored: Option<string>): (r: Check)
    ensures r == Valid <==> Truthy(incoming) || Truthy(stored)
    ensures r != Valid ==> r == Invalid("video", VideoError)
  {
    var video := if Truthy(incoming) then incoming else stored;
    if !Truthy(video) then Invalid("video", VideoError) else Valid
  }

  // ---------------------------------------------------------------------
  // BlogPostSerializer.validate_title
  // ---------------------------------------------------------------------

  datatype TitledRow = TitledRow(pk: nat, title: string)

  const TitleError := "A blog post with this title already exists."

  /** `instance` is the pk of the post being updated, None when creating. */
  function ValidateTitle(value: string, instance: Option<nat>, posts: seq<TitledRow>): (r: Check)
    ensures r == Valid <==> forall i :: 0 <= i < |posts| && posts[i].title == value ==> Some(posts[i].pk) == instance
    ensures r != Valid ==> r == Invalid("title", TitleError)
  {
    var sameTitle := Filter(posts, (p: TitledRow) => p.title == value);
    var others := if instance.Some? then Filter(sameTitle, (p: TitledRow) => p.pk != instance.value) else sameTitle;
    if others != [] then
      assert others[0] in others;
      Invalid("title", TitleError)
    else
      assert forall i :: 0 <= i < |posts| && posts[i].title == value ==> posts[i] in sameTitle;
      Valid
  }

  /** On a table where titles are unique, an update may keep its own title,
      while a new post may not reuse any existing title. */
  lemma OwnTitleAccepted(posts: seq<TitledRow>, k: nat)
    requires 0 <= k < |posts|
    requires forall i, j :: 0 <= i < |posts| && 0 <= j < |posts| && posts[i].title == posts[j].title ==> i == j
    ensures ValidateTitle(posts[k].title, Some(posts[k].pk), posts) == Valid
    ensures ValidateTitle(posts[k].title, None, posts) == Invalid("title", TitleError)
  {
  }

  // ---------------------------------------------------------------------
  // File fields as URLs
  // ---------------------------------------------------------------------

  /** What the storage backend does when asked for a file's URL: a URL, an
      AttributeError, or any other exception. */
  datatype Resolution = Resolved(url: string) | NoUrl | Failed

  datatype Json = Null | Bool(b: bool) | Num(n: int) | Str(s: string)

  /** A computation that either finishes with a value or lets an exception
      propagate to the caller. */
  datatype Outcome<T> = Done(value: T) | Raised

  /** The URL written for a file field. `file` is the field's stored name
      (None when the attribute is absent, "" when the field is empty),
      `resolve` the storage's `url`, `absolute` the request's
      `build_absolute_uri` (None when the serializer has no request).

      As written: the truthiness and `hasattr(file, 'url')` test runs
      outside the `try`, and `hasattr` only swallows AttributeError, so any
      other failure of the URL lookup propagates instead of giving null. */
  function BuildUrl(file: Option<string>, resolve: string -> Resolution,
                    absolute: Option<string -> string>): (r: Outcome<Json>)
    ensures r.Raised? <==> Truthy(file) && resolve(file.value).Failed?
    ensures r.Done? ==> (r.value == Null <==> !Truthy(file) || resolve(file.value).NoUrl?)
    ensures r.Done? ==> r.value.Null? || r.value.Str?
  {
    if !Truthy(file) then Done(Null)
    else
      match resolve(file.value)
      case NoUrl => Done(Null)
      case Failed => Raised
      case Resolved(url) => Done(Str(if absolute.Some? then absolute.value(url) else url))
  }

  /** The same mapping as evidently intended: any failure of the lookup
      gives null. */
  function BuildUrlIntended(file: Option<string>, resolve: string -> Resolution,
                            absolute: Option<string -> string>): (r: Json)
    ensures r.Null? || r.Str?
    ensures r == Null <==> !Truthy(file) || !resolve(file.value).Resolved?
    ensures r.Str? ==> r.s == (if absolute.Some? then absolute.value(resolve(file.value).url) else resolve(file.value).url)
  {
    if !Truthy(file) then Null
    else
      match resolve(file.value)
      case Resolved(url) => Str(if absolute.Some? then absolute.value(url) else url)
      case _ => Null
  }

  /** The two agree whenever the code as written does not raise, and it
      raises for a stored file whose URL lookup fails with an error other
      than AttributeError. */
  lemma BuildUrlAsWrittenRaises(file: Option<string>, resolve: string -> Resolution,
                                absolute: Option<string -> string>)
    ensures BuildUrl(file, resolve, absolute).Done? ==>
            BuildUrl(file, resolve, absolute).value == BuildUrlIntended(file, resolve, absolute)
    ensures resolve == ((n: string) => Failed) && file == Some("banners/intro.mp4") ==>
            BuildUrl(file, resolve, absolute).Raised? && BuildUrlIntended(file, resolve, absolute) == Null
  {
  }

  /** `data[field] = <url or None>` for one file field, as the Banner,
      Client and SiteConfig serializers do. */
  function WithFileUrl(data: map<string, Json>, field: string, file: Option<string>,
                       resolve: string -> Resolution, absolute: Option<string -> string>): (r: Outcome<map<string, Json>>)
    ensures r.Done? ==> r.value.Keys == data.Keys + {field}
    ensures r.Done? ==> forall f :: f in data && f != field ==> r.value[f] == data[f]
    ensures r.Done? ==> BuildUrl(file, resolve, absolute).Done? && r.value[field] == BuildUrl(file, resolve, absolute).value
    ensures r.Raised? <==> BuildUrl(file, resolve, absolute).Raised?
  {
    match BuildUrl(file, resolve, absolute)
    case Raised => Raised
    case Done(url) => Done(data[field := url])
  }

  /** `BannerSerializer.to_representation`: the video and its poster. */
  function BannerRepresentation(data: map<string, Json>, video: Option<string>, poster: Option<string>,
                                resolve: string -> Resolution, absolute: Option<string -> string>): (r: Outcome<map<string, Json>>)
    ensures r.Done? ==> r.value.Keys == data.Keys + {"video", "video_poster"}
    ensures r.Done? ==> forall f :: f in data && f != "video" && f != "video_poster" ==> r.value[f] == data[f]
    ensures r.Done? ==> BuildUrl(video, resolve, absolute).Done? && r.value["video"] == BuildUrl(video, resolve, absolute).value
    ensures r.Done? ==> BuildUrl(poster, resolve, absolute).Done? && r.value["video_poster"] == BuildUrl(poster, resolve, absolute).value
    ensures r.Raised? <==> BuildUrl(video, resolve, absolute).Raised? || BuildUrl(poster, resolve, absolute).Raised?
  {
    match WithFileUrl(data, "video", video, resolve, absolute)
    case Raised => Raised
    case Done(d) => WithFileUrl(d, "video_poster", poster, resolve, absolute)
  }

  const AboutImageFields: seq<string> := ["image", "mission_image", "vision_image", "goals_image", "achievements_image"]

  /** `getattr(instance, field, None)` on the About instance's file fields. */
  function ImageOf(images: map<string, string>, field: string): Option<string>
  {
    if field in images then Some(images[field]) else None
  }

  /** `AboutSerializer.to_representation`: every image field of the output
      is replaced, in order, by the file's URL or null; every other field is
      kept. */
  method AboutRepresentation(data: map<string, Json>, images: map<string, string>,
                             resolve: string -> Resolution, absolute: Option<string -> string>)
    returns (r: Outcome<map<string, Json>>)
    ensures r.Raised? <==> exists i :: 0 <= i < |AboutImageFields| && BuildUrl(ImageOf(images, AboutImageFields[i]), resolve, absolute).Raised?
    ensures r.Done? ==> forall f :: f in r.value <==> f in data || f in AboutImageFields
    ensures r.Done? ==> forall f :: f in data && f !in AboutImageFields ==> r.value[f] == data[f]
    ensures r.Done? ==> forall i :: 0 <= i < |AboutImageFields| ==>
              r.value[AboutImageFields[i]] == BuildUrl(ImageOf(images, AboutImageFields[i]), resolve, absolute).value
    ensures (forall n :: !resolve(n).Failed?) ==>
              (r.Done? && forall i :: 0 <= i < |AboutImageFields| ==> r.value[AboutImageFields[i]].Null? || r.value[AboutImageFields[i]].Str?)
  {
    var out := data;
    var i := 0;
    while i < |AboutImageFields|
      invariant 0 <= i <= |AboutImageFields|
      invariant forall f :: f in out <==> f in data || f in AboutImageFields[..i]
      invariant forall f :: f in data && f !in AboutImageFields[..i] ==> out[f] == data[f]
      invariant forall j :: 0 <= j < i ==> BuildUrl(ImageOf(images, AboutImageFields[j]), resolve, absolute).Done?
      invariant forall j :: 0 <= j < i ==>
                  out[AboutImageFields[j]] == BuildUrl(ImageOf(images, AboutImageFields[j]), resolve, absolute).value
    {
      var field := AboutImageFields[i];
      match BuildUrl(ImageOf(images, field), resolve, absolute)
      case Raised =>
        return Raised;
      case Done(url) =>
        out := out[field := url];
      i := i + 1;
    }
    r := Done(out);
  }
}
