/**
 * The two record types of the blog back end, Author and Post, and the
 * field validators that gate every value before it is stored. Each
 * validator returns the value to store (`Ok`) or the validation error
 * with its message (`Err`), where the Python code raises `ValueError`.
 */
module Models {
  import opened PyStr

  datatype Result<T> = Ok(value: T) | Err(msg: string)

  // Error messages, as the validators raise them.
  const NameRequired := "Author name must be provided."
  const NameTaken := "Author name must not already exist"
  const PhoneInvalid := "Phone number must be exactly 10 digits"
  const TitleNotClickbait :=
    "Title must be clickbait-y and contain: 'Won't Believe', 'Secret', 'Top', or 'Guess'."
  const ContentTooShort := "Post content must be at least 250 characters long."
  const CategoryInvalid := " Post must be categorized as Fiction or Non-Fiction."
  const SummaryTooLong := "Post summary cannot exceed 250 characters."

  const PhoneLength := 10
  const MinContentLength := 250
  const MaxSummaryLength := 250
  const ClickbaitPhrases: seq<string> := ["Won't Believe", "Secret", "Top", "Guess"]
  const Categories: seq<string> := ["Fiction", "Non-Fiction"]

  // ---------------------------------------------------------------- Author

  /** `validate_name`: the store's lookup of an author by name is the set
      `existing` of names already stored. */
  function ValidateName(name: string, existing: set<string>): (r: Result<string>)
    ensures r.Ok? <==> name != "" && name !in existing
    ensures r.Ok? ==> r.value == name
    ensures name == "" ==> r == Err(NameRequired)
    ensures name != "" && name in existing ==> r == Err(NameTaken)
  {
    if name == "" then Err(NameRequired)
    else if name in existing then Err(NameTaken)
    else Ok(name)
  }

  /** A stored phone number: exactly ten ASCII digits. */
  predicate IsPhoneNumber(p: string) {
    |p| == PhoneLength && forall i :: 0 <= i < |p| ==> IsDigitChar(p[i])
  }

  /** `validates_phone_number`: strip, then demand `isdigit()` and length 10. */
  function ValidatePhoneNumber(phone: string): (r: Result<string>)
    ensures r.Ok? <==> IsPhoneNumber(Strip(phone))
    ensures r.Ok? ==> r.value == Strip(phone) && IsPhoneNumber(r.value)
    ensures r.Err? ==> r.msg == PhoneInvalid
  {
    var p := Strip(phone);
    if !(IsDigit(p) && |p| == PhoneLength) then Err(PhoneInvalid) else Ok(p)
  }

  /** Ten digits surrounded by any whitespace are accepted, and the digits alone are stored. */
  lemma PhoneAcceptsPadded(w1: string, digits: string, w2: string)
    requires AllSpace(w1) && AllSpace(w2)
    requires IsPhoneNumber(digits)
    ensures ValidatePhoneNumber(w1 + digits + w2) == Ok(digits)
  {
    StripPadded(w1, digits, w2);
  }

  /** Validating a stored phone number again accepts it unchanged. */
  lemma PhoneIdempotent(phone: string)
    requires ValidatePhoneNumber(phone).Ok?
    ensures ValidatePhoneNumber(ValidatePhoneNumber(phone).value) == ValidatePhoneNumber(phone)
  {
    StripIdempotent(phone);
  }

  /** Empty and all-whitespace input is rejected: `isdigit` is false on "". */
  lemma PhoneRejectsBlank(phone: string)
    requires AllSpace(phone)
    ensures ValidatePhoneNumber(phone) == Err(PhoneInvalid)
  {
    StripAllSpace(phone);
  }

  /** A padded value whose middle has a non-digit or the wrong length is rejected. */
  lemma PhoneRejectsMalformed(w1: string, m: string, w2: string)
    requires AllSpace(w1) && AllSpace(w2) && Unpadded(m)
    requires |m| != PhoneLength || exists i :: 0 <= i < |m| && !IsDigitChar(m[i])
    ensures ValidatePhoneNumber(w1 + m + w2) == Err(PhoneInvalid)
  {
    StripPadded(w1, m, w2);
  }

  /** An optional attribute: `None` when the caller leaves it out of the
      constructor call, so that its validator never runs and it is stored empty. */
  datatype Option<T> = None | Some(value: T)

  /** A phone number may be left out; one that is given must be valid. */
  predicate PhoneOk(phone: Option<string>) {
    phone.Some? ==> IsPhoneNumber(phone.value)
  }

  datatype Author = Author(name: string, phoneNumber: Option<string>)

  /** A table of authors that all passed validation, no two sharing a name. */
  predicate AuthorsOk(authors: seq<Author>) {
    && (forall i :: 0 <= i < |authors| ==> authors[i].name != "" && PhoneOk(authors[i].phoneNumber))
    && (forall i, j :: 0 <= i < j < |authors| ==> authors[i].name != authors[j].name)
  }

  /** Appending a valid author under a fresh name keeps the table valid. */
  lemma AppendAuthor(authors: seq<Author>, a: Author)
    requires AuthorsOk(authors)
    requires a.name != "" && PhoneOk(a.phoneNumber)
    requires forall i :: 0 <= i < |authors| ==> authors[i].name != a.name
    ensures AuthorsOk(authors + [a])
  {
    var t := authors + [a];
    forall i, j | 0 <= i < j < |t| ensures t[i].name != t[j].name {
      if j < |authors| {
        assert t[i] == authors[i] && t[j] == authors[j];
      }
    }
  }

  /** A table of authors, checked and extended one creation at a time. */
  class AuthorStore {
    var authors: seq<Author>

    /** Every stored author passed validation, and no two share a name. */
    ghost predicate Valid()
      reads this
    {
      AuthorsOk(authors)
    }

    /** The names the uniqueness check looks up. */
    function Names(): (ns: set<string>)
      reads this
      ensures forall i :: 0 <= i < |authors| ==> authors[i].name in ns
      ensures forall n :: n in ns ==> exists i :: 0 <= i < |authors| && authors[i].name == n
    {
      set i | 0 <= i < |authors| :: authors[i].name
    }

    constructor ()
      ensures Valid() && authors == []
    {
      authors := [];
    }

    /** Build an Author from `name` and, when given, `phone` (name validated
        first, then the phone number) and store it; the first failing field
        aborts the creation. A phone number left out is stored empty, unchecked. */
    method CreateAuthor(name: string, phone: Option<string>) returns (r: Result<Author>)
      requires Valid()
      modifies this
      ensures Valid()
      ensures r.Ok? <==> name != "" && name !in old(Names())
                         && (phone.Some? ==> IsPhoneNumber(Strip(phone.value)))
      ensures r.Ok? ==> r.value.name == name && authors == old(authors) + [r.value]
      ensures r.Ok? ==> r.value.phoneNumber == if phone.Some? then Some(Strip(phone.value)) else None
      ensures r.Err? ==> authors == old(authors)
      ensures r.Err? ==> r.msg == (if ValidateName(name, old(Names())).Err?
                                   then ValidateName(name, old(Names())).msg
                                   else PhoneInvalid)
    {
      var n := ValidateName(name, Names());
      if n.Err? {
        return Err(n.msg);
      }
      var stored := None;
      if phone.Some? {
        var p := ValidatePhoneNumber(phone.value);
        if p.Err? {
          return Err(p.msg);
        }
        stored := Some(p.value);
      }
      var author := Author(n.value, stored);
      forall i | 0 <= i < |authors| ensures authors[i].name != author.name {
        assert authors[i].name in Names();
      }
      AppendAuthor(authors, author);
      authors := authors + [author];
      r := Ok(author);
    }
  }

  /** A first "Jane Doe" is stored; a second "Jane Doe" is refused as a duplicate. */
  method DuplicateAuthorScenario() returns (first: Result<Author>, second: Result<Author>)
    ensures first == Ok(Author("Jane Doe", Some("1234567890")))
    ensures second == Err(NameTaken)
  {
    var store := new AuthorStore();
    assert IsPhoneNumber("1234567890");
    StripPadded([], "1234567890", []);
    assert [] + "1234567890" + [] == "1234567890";
    first := store.CreateAuthor("Jane Doe", Some("1234567890"));
    second := store.CreateAuthor("Jane Doe", Some("1234567890"));
    assert store.authors[0].name == "Jane Doe";
  }

  // ------------------------------------------------------------------ Post

  /** `any(phrase in title for phrase in phrases)` */
  function AnyPhraseIn(phrases: seq<string>, title: string): (b: bool)
    ensures b <==> exists i :: 0 <= i < |phrases| && Contains(title, phrases[i])
  {
    |phrases| > 0 && (Contains(title, phrases[0]) || AnyPhraseIn(phrases[1..], title))
  }

  /** The title rule: one of the four clickbait phrases occurs in it (case-sensitive). */
  predicate IsClickbait(title: string) {
    || Contains(title, "Won't Believe") || Contains(title, "Secret")
    || Contains(title, "Top") || Contains(title, "Guess")
  }

  /** `validates_title`: some clickbait phrase must occur in the title. */
  function ValidateTitle(title: string): (r: Result<string>)
    ensures r.Ok? <==> IsClickbait(title)
    ensures r.Ok? ==> r.value == title
    ensures r.Err? ==> r.msg == TitleNotClickbait
  {
    ClickbaitPhrasesListed(title);
    if !AnyPhraseIn(ClickbaitPhrases, title) then Err(TitleNotClickbait) else Ok(title)
  }

  lemma ClickbaitPhrasesListed(title: string)
    ensures AnyPhraseIn(ClickbaitPhrases, title) <==> IsClickbait(title)
  {
    assert ClickbaitPhrases[0] == "Won't Believe" && ClickbaitPhrases[1] == "Secret";
    assert ClickbaitPhrases[2] == "Top" && ClickbaitPhrases[3] == "Guess";
  }

  /** Gluing text around a clickbait phrase always yields an acceptable title. */
  lemma TitleAcceptsPhrase(before: string, k: nat, after: string)
    requires k < |ClickbaitPhrases|
    ensures ValidateTitle(before + ClickbaitPhrases[k] + after) == Ok(before + ClickbaitPhrases[k] + after)
  {
    ContainsMiddle(before, ClickbaitPhrases[k], after);
  }

  /** "Top 10 Secrets" is accepted. */
  lemma TitleExampleAccepted()
    ensures ValidateTitle("Top 10 Secrets") == Ok("Top 10 Secrets")
  {
    TitleAcceptsPhrase("", 2, " 10 Secrets");
    assert "" + "Top" + " 10 Secrets" == "Top 10 Secrets";
  }

  /** A title that lacks the letters 'S', 'T' and 'G' and is shorter than
      "Won't Believe" is rejected, e.g. "My Day" or the lower-case "top secret". */
  lemma TitleRejectsPlain(title: string)
    requires |title| < 13 && 'S' !in title && 'T' !in title && 'G' !in title
    ensures ValidateTitle(title) == Err(TitleNotClickbait)
  {
    NotContainsShort(title, "Won't Believe");
    NotContainsAbsentChar(title, "Secret", 'S');
    NotContainsAbsentChar(title, "Top", 'T');
    NotContainsAbsentChar(title, "Guess", 'G');
  }

  lemma NotContainsShort(s: string, p: string)
    requires |s| < |p|
    ensures !Contains(s, p)
  {
    ContainsIffOccurs(s, p);
  }

  /** A phrase holding a character the text lacks does not occur in it. */
  lemma NotContainsAbsentChar(s: string, p: string, c: char)
    requires c in p && c !in s
    ensures !Contains(s, p)
  {
    ContainsIffOccurs(s, p);
  }

  /** `validates_content`: at least 250 characters. */
  function ValidateContent(content: string): (r: Result<string>)
    ensures r.Ok? <==> |content| >= 250
    ensures r.Ok? ==> r.value == content
    ensures r.Err? ==> r.msg == ContentTooShort
  {
    if |content| < MinContentLength then Err(ContentTooShort) else Ok(content)
  }

  /** The category rule: exactly one of the two fixed values. */
  predicate IsCategory(category: string) {
    category == "Fiction" || category == "Non-Fiction"
  }

  /** `validates_category`: exactly "Fiction" or "Non-Fiction". */
  function ValidateCategory(category: string): (r: Result<string>)
    ensures r.Ok? <==> IsCategory(category)
    ensures r.Ok? ==> r.value == category
    ensures r.Err? ==> r.msg == CategoryInvalid
  {
    if category !in Categories then Err(CategoryInvalid) else Ok(category)
  }

  /** `validates_summary`: at most 250 characters, the empty summary included. */
  function ValidateSummary(summary: string): (r: Result<string>)
    ensures r.Ok? <==> |summary| <= 250
    ensures r.Ok? ==> r.value == summary
    ensures r.Err? ==> r.msg == SummaryTooLong
  {
    if |summary| > MaxSummaryLength then Err(SummaryTooLong) else Ok(summary)
  }

  /** The length thresholds sit exactly at 250: "fiction" and "" are no categories. */
  lemma BoundaryExamples(s: string)
    ensures |s| == 250 ==> ValidateContent(s).Ok? && ValidateSummary(s).Ok?
    ensures |s| == 249 ==> ValidateContent(s).Err?
    ensures |s| == 251 ==> ValidateSummary(s).Err?
    ensures ValidateSummary("").Ok?
    ensures ValidateCategory("fiction").Err? && ValidateCategory("").Err?
  {
  }

  datatype Post = Post(title: string, content: Option<string>, category: Option<string>,
                       summary: Option<string>)

  /** A stored post: the title satisfies its rule, and so does every other
      field that was given. */
  predicate PostOk(p: Post) {
    && IsClickbait(p.title)
    && (p.content.Some? ==> |p.content.value| >= MinContentLength)
    && (p.category.Some? ==> IsCategory(p.category.value))
    && (p.summary.Some? ==> |p.summary.value| <= MaxSummaryLength)
  }

  /** Run `validate` on a field only when the caller gave it. */
  function IfGiven(field: Option<string>, validate: string -> Result<string>): Result<Option<string>> {
    match field
    case None => Ok(None)
    case Some(v) =>
      var r := validate(v);
      if r.Err? then Err(r.msg) else Ok(Some(r.value))
  }

  /** Assign the given fields, validated in declaration order; the first
      failing field aborts the post with its message. Fields left out are
      stored empty without validation. */
  function NewPost(title: string, content: Option<string>, category: Option<string>,
                   summary: Option<string>): (r: Result<Post>)
    ensures r.Ok? <==> PostOk(Post(title, content, category, summary))
    ensures r.Ok? ==> r.value == Post(title, content, category, summary)
    ensures r.Err? ==>
      || (r.msg == TitleNotClickbait && !IsClickbait(title))
      || (r.msg == ContentTooShort && content.Some? && |content.value| < MinContentLength)
      || (r.msg == CategoryInvalid && category.Some? && !IsCategory(category.value))
      || (r.msg == SummaryTooLong && summary.Some? && |summary.value| > MaxSummaryLength)
  {
    var t := ValidateTitle(title);
    if t.Err? then Err(t.msg) else
    var c := IfGiven(content, ValidateContent);
    if c.Err? then Err(c.msg) else
    var g := IfGiven(category, ValidateCategory);
    if g.Err? then Err(g.msg) else
    var s := IfGiven(summary, ValidateSummary);
    if s.Err? then Err(s.msg) else
    Ok(Post(t.value, c.value, g.value, s.value))
  }
}
