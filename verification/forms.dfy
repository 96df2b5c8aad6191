/**
 * The two model forms (posts/forms.py). `PostForm` edits `group`, `text` and
 * `image` of a post; `CommentForm` edits only `text` of a comment. Text is
 * stripped of surrounding whitespace (as Python's `str.strip` does) and is
 * required, so text that is empty or only whitespace is refused.
 */
module Forms {
  import opened Models

  /** The characters Python's `str.isspace` accepts. */
  predicate IsSpace(c: char)
  {
    || c == ' '
    || '\t' <= c <= '\r'
    || '\U{1C}' <= c <= '\U{1F}'
    || c == '\U{85}' || c == '\U{A0}' || c == '\U{1680}'
    || '\U{2000}' <= c <= '\U{200A}'
    || c == '\U{2028}' || c == '\U{2029}' || c == '\U{202F}' || c == '\U{205F}' || c == '\U{3000}'
  }

  /** Empty or whitespace only. */
  predicate Blank(s: string)
  {
    forall i | 0 <= i < |s| :: IsSpace(s[i])
  }

  /** `s` without its leading whitespace. */
  function TrimStart(s: string): (r: string)
    ensures |r| <= |s|
    ensures r != [] ==> !IsSpace(r[0])
  {
    if s != [] && IsSpace(s[0]) then TrimStart(s[1..]) else s
  }

  /** `s` without its trailing whitespace. */
  function TrimEnd(s: string): (r: string)
    ensures |r| <= |s|
    ensures r != [] ==> !IsSpace(r[|r| - 1])
  {
    if s != [] && IsSpace(s[|s| - 1]) then TrimEnd(s[..|s| - 1]) else s
  }

  /** Trimming the start drops a whitespace prefix and keeps the rest. */
  lemma {:induction false} TrimStartDropsSpace(s: string)
    ensures var r := TrimStart(s); r == s[|s| - |r|..] && Blank(s[..|s| - |r|])
  {
    if s != [] && IsSpace(s[0]) {
      TrimStartDropsSpace(s[1..]);
      var r := TrimStart(s);
      assert s[..|s| - |r|] == [s[0]] + s[1..][..|s| - 1 - |r|];
    }
  }

  /** Trimming the end drops a whitespace suffix and keeps the rest. */
  lemma {:induction false} TrimEndDropsSpace(s: string)
    ensures var r := TrimEnd(s); r == s[..|r|] && Blank(s[|r|..])
  {
    if s != [] && IsSpace(s[|s| - 1]) {
      var t := s[..|s| - 1];
      TrimEndDropsSpace(t);
      var r := TrimEnd(s);
      assert s[|r|..] == t[|r|..] + [s[|s| - 1]];
    }
  }

  /**
   * Python's `str.strip()`, which the form applies to submitted text: what is
   * left neither starts nor ends with whitespace.
   */
  function Strip(s: string): (r: string)
    ensures |r| <= |s|
    ensures r == [] || (!IsSpace(r[0]) && !IsSpace(r[|r| - 1]))
  {
    var t := TrimStart(s);
    var r := TrimEnd(t);
    TrimEndDropsSpace(t);
    assert r != [] ==> r[0] == t[0];
    r
  }

  /** Stripping keeps a middle part of the text and cuts off only whitespace around it. */
  lemma StripCutsWhitespace(s: string)
    ensures var r := Strip(s);
      exists k | 0 <= k <= |s| - |r| :: r == s[k..k + |r|] && Blank(s[..k]) && Blank(s[k + |r|..])
  {
    var t := TrimStart(s);
    var r := Strip(s);
    var k := |s| - |t|;
    TrimStartDropsSpace(s);
    TrimEndDropsSpace(t);
    assert s[k..] == t;
    assert s[k + |r|..] == t[|r|..];
    assert r == s[k..k + |r|];
  }

  /** Stripping leaves nothing exactly when the text is whitespace only. */
  lemma StripEmptyIff(s: string)
    ensures Strip(s) == [] <==> Blank(s)
  {
    var t := TrimStart(s);
    var k := |s| - |t|;
    TrimStartDropsSpace(s);
    TrimEndDropsSpace(t);
    if Strip(s) == [] {
      assert t == t[0..];
      assert s == s[..k];
    } else {
      assert Strip(s)[0] == t[0] == s[k];
    }
  }

  /** What a text field of either form accepts: a character that is not whitespace. */
  predicate ValidText(s: string)
    ensures ValidText(s) <==> !Blank(s)
  {
    StripEmptyIff(s);
    Strip(s) != []
  }

  /** Stripping twice changes nothing more than stripping once. */
  lemma StripIdempotent(s: string)
    ensures Strip(Strip(s)) == Strip(s)
  {
    var r := Strip(s);
    assert TrimStart(r) == r;
    assert TrimEnd(r) == r;
  }

  // ---------------------------------------------------------------------------
  // PostForm
  // ---------------------------------------------------------------------------

  /** The fields of the `Post` model. */
  datatype PostField = PostIdField | TextField | PubDateField | AuthorField | GroupField | ImageField

  /** `PostForm.Meta.fields`. */
  const PostFormFields: set<PostField> := {GroupField, TextField, ImageField}

  predicate SamePostField(p: Post, q: Post, f: PostField)
  {
    match f
    case PostIdField => p.id == q.id
    case TextField => p.text == q.text
    case PubDateField => p.pubDate == q.pubDate
    case AuthorField => p.author == q.author
    case GroupField => p.group == q.group
    case ImageField => p.image == q.image
  }

  /** What a post form submits: text, an optional group key and an optional file. */
  datatype PostInput = PostInput(text: string, group: Option<GroupId>, image: Option<Upload>)

  datatype FieldError = TextRequired | InvalidGroupChoice | InvalidImage

  /**
   * The errors a bound `PostForm` reports: text missing after stripping, a
   * group key that names no group, an upload that fails the image checks.
   */
  function PostFormErrors(input: PostInput, groups: seq<Group>, decodes: Upload -> bool): (errs: set<FieldError>)
    ensures TextRequired in errs <==> Blank(input.text)
    ensures InvalidGroupChoice in errs <==> input.group.Some? && forall g | g in groups :: g.id != input.group.value
    ensures InvalidImage in errs <==> input.image.Some? && !decodes(input.image.value)
  {
    var badText := !ValidText(input.text);
    var badGroup := input.group.Some? && input.group.value !in GroupIds(groups);
    var badImage := input.image.Some? && !decodes(input.image.value);
    assert badGroup <==> input.group.Some? && forall g | g in groups :: g.id != input.group.value;
    var errs := (if badText then {TextRequired} else {})
      + (if badGroup then {InvalidGroupChoice} else {})
      + (if badImage then {InvalidImage} else {});
    assert TextRequired in errs <==> badText;
    assert InvalidGroupChoice in errs <==> badGroup;
    assert InvalidImage in errs <==> badImage;
    errs
  }

  /** The form is valid exactly when text, group and image are each acceptable. */
  lemma PostFormValidIff(input: PostInput, groups: seq<Group>, decodes: Upload -> bool)
    ensures PostFormErrors(input, groups, decodes) == {} <==>
      && !Blank(input.text)
      && (input.group.Some? ==> exists g | g in groups :: g.id == input.group.value)
      && (input.image.Some? ==> decodes(input.image.value))
  {
    var errs := PostFormErrors(input, groups, decodes);
    if Blank(input.text) { assert TextRequired in errs; }
    if input.group.Some? && input.group.value !in GroupIds(groups) { assert InvalidGroupChoice in errs; }
    if input.image.Some? && !decodes(input.image.value) { assert InvalidImage in errs; }
  }

  /**
   * `PostForm(..., instance=p).save()`: the form writes its three fields into
   * the instance. With no file submitted the stored image is kept.
   */
  function SavePostForm(p: Post, input: PostInput): (r: Post)
    ensures forall f | f !in PostFormFields :: SamePostField(p, r, f)
    ensures r.text == Strip(input.text) && r.group == input.group
    ensures r.image == if input.image.Some? then input.image else p.image
  {
    p.(text := Strip(input.text),
       group := input.group,
       image := if input.image.Some? then input.image else p.image)
  }

  // ---------------------------------------------------------------------------
  // CommentForm
  // ---------------------------------------------------------------------------

  /** The fields of the `Comment` model. */
  datatype CommentField = CommentIdField | CommentAuthorField | CommentPostField | CommentTextField | CreatedField

  /** `CommentForm.Meta.fields`. */
  const CommentFormFields: set<CommentField> := {CommentTextField}

  predicate SameCommentField(c: Comment, d: Comment, f: CommentField)
  {
    match f
    case CommentIdField => c.id == d.id
    case CommentAuthorField => c.author == d.author
    case CommentPostField => c.post == d.post
    case CommentTextField => c.text == d.text
    case CreatedField => c.created == d.created
  }

  /** The errors a bound `CommentForm` reports. */
  function CommentFormErrors(text: string): (errs: set<FieldError>)
    ensures errs == {} <==> !Blank(text)
    ensures errs <= {TextRequired}
  {
    if ValidText(text) then {} else {TextRequired}
  }

  /** `CommentForm(..., instance=c).save()`: only the text is written. */
  function SaveCommentForm(c: Comment, text: string): (r: Comment)
    ensures forall f | f !in CommentFormFields :: SameCommentField(c, r, f)
    ensures r.text == Strip(text)
  {
    c.(text := Strip(text))
  }
}
