/** The admin page that creates an event (app/admin/events/new/page.tsx):
    the slug derived from the title, the thumbnail picker, and the submit
    sequence (upload the thumbnail, then write the event, then navigate).

    The page's React state is the class `NewEventForm`. The media host's
    reply to the thumbnail upload and the store's write outcome are
    parameters; `objectUrl` stands for `URL.createObjectURL(file)`. */
module NewEventPage {
  import opened EventTypes
  import opened Subsequences
  import opened StorageServices
  import opened FirestoreServices

  // ---------------------------------------------------------------------
  // The slug

  /** `toLowerCase` on the ASCII letters; other characters are kept. */
  function ToLowerAscii(c: char): (d: char)
    ensures 'A' <= c <= 'Z' ==> 'a' <= d <= 'z' && d as int == c as int + 32
    ensures !('A' <= c <= 'Z') ==> d == c
  {
    if 'A' <= c <= 'Z' then (c as int + 32) as char else c
  }

  function Lower(s: string): (r: string)
    ensures |r| == |s| && forall i :: 0 <= i < |s| ==> r[i] == ToLowerAscii(s[i])
  {
    seq(|s|, i requires 0 <= i < |s| => ToLowerAscii(s[i]))
  }

  /** The class `[a-z0-9]`. */
  predicate IsSlugChar(c: char) {
    'a' <= c <= 'z' || '0' <= c <= '9'
  }

  /** What remains after the run of characters outside `[a-z0-9]` at the
      front of `s`. */
  function DropRun(s: string): (r: string)
    ensures |r| <= |s| && r == s[|s| - |r|..]
    ensures r == [] || IsSlugChar(r[0])
    decreases |s|
  {
    if s != [] && !IsSlugChar(s[0]) then DropRun(s[1..]) else s
  }

  /** No two hyphens side by side. */
  predicate NoDoubleHyphen(s: string) {
    forall i, j :: 0 <= i < |s| && j == i + 1 && j < |s| ==> !(s[i] == '-' && s[j] == '-')
  }

  /** Only the class and single hyphens. */
  predicate Hyphenated(s: string) {
    && (forall i :: 0 <= i < |s| ==> IsSlugChar(s[i]) || s[i] == '-')
    && NoDoubleHyphen(s)
  }

  /** A letter or digit, or a hyphen before anything but a hyphen, can be
      put in front of hyphenated text. */
  lemma ConsHyphenated(c: char, r: string)
    requires Hyphenated(r)
    requires IsSlugChar(c) || (c == '-' && (r == [] || r[0] != '-'))
    ensures Hyphenated([c] + r)
  {
    var u := [c] + r;
    forall i | 0 <= i < |u|
      ensures IsSlugChar(u[i]) || u[i] == '-'
    {
      if i > 0 {
        assert u[i] == r[i - 1];
      }
    }
    forall i, j | 0 <= i < |u| && j == i + 1 && j < |u|
      ensures !(u[i] == '-' && u[j] == '-')
    {
      assert u[j] == r[j - 1];
      if i > 0 {
        assert u[i] == r[i - 1];
      }
    }
  }

  /** `.replace(/[^a-z0-9]+/g, "-")`: every maximal run outside the class
      becomes one hyphen. The result draws on the class and the hyphen only,
      never has two hyphens in a row, and starts with a hyphen exactly when
      the input starts outside the class. */
  function HyphenateRuns(s: string): (r: string)
    ensures Hyphenated(r)
    ensures r == [] <==> s == []
    ensures s != [] ==> (r[0] == '-' <==> !IsSlugChar(s[0]))
    decreases |s|
  {
    if s == [] then []
    else if IsSlugChar(s[0]) then
      var rest := HyphenateRuns(s[1..]);
      ConsHyphenated(s[0], rest);
      [s[0]] + rest
    else
      var rest := HyphenateRuns(DropRun(s[1..]));
      ConsHyphenated('-', rest);
      "-" + rest
  }

  /** `.replace(/^-|-$/g, "")`: one hyphen off the front, then one off the
      end of what is left. */
  function TrimHyphens(s: string): (r: string)
    ensures |r| <= |s|
  {
    var t := if s != [] && s[0] == '-' then s[1..] else s;
    if t != [] && t[|t| - 1] == '-' then t[..|t| - 1] else t
  }

  /** The `slug` of `handleSubmit`. */
  function Slug(title: string): string {
    TrimHyphens(HyphenateRuns(Lower(title)))
  }

  /** The shape every slug has: lower-case letters, digits and single
      hyphens between them. */
  predicate IsSlug(s: string) {
    && Hyphenated(s)
    && (s != [] ==> s[0] != '-' && s[|s| - 1] != '-')
  }

  /** Any slice of hyphenated text is hyphenated. */
  lemma HyphenatedSlice(s: string, a: nat, b: nat)
    requires Hyphenated(s) && a <= b <= |s|
    ensures Hyphenated(s[a..b])
  {
    var u := s[a..b];
    forall i | 0 <= i < |u|
      ensures IsSlugChar(u[i]) || u[i] == '-'
    {
      assert u[i] == s[a + i];
    }
    forall i, j | 0 <= i < |u| && j == i + 1 && j < |u|
      ensures !(u[i] == '-' && u[j] == '-')
    {
      assert u[i] == s[a + i] && u[j] == s[a + j];
    }
  }

  /** Every slug has the slug shape. */
  lemma SlugIsSlug(title: string)
    ensures IsSlug(Slug(title))
  {
    var h := HyphenateRuns(Lower(title));
    var a := if h != [] && h[0] == '-' then 1 else 0;
    var t := h[a..];
    HyphenatedSlice(h, a, |h|);
    if a == 1 && t != [] {
      assert h[0] == '-' && h[1] == t[0];
      assert t[0] != '-';
    }
    if t != [] && t[|t| - 1] == '-' {
      HyphenatedSlice(h, a, |h| - 1);
      assert t[..|t| - 1] == h[a..|h| - 1];
      var u := t[..|t| - 1];
      if u != [] {
        assert u[|u| - 1] == h[|h| - 2] && h[|h| - 1] == '-';
      }
    }
    assert Slug(title) == (if t != [] && t[|t| - 1] == '-' then t[..|t| - 1] else t);
  }

  /** Dropping a run of separators drops no letter or digit. */
  lemma {:induction false} DropRunKeepsClass(s: string)
    ensures Filter(DropRun(s), IsSlugChar) == Filter(s, IsSlugChar)
    decreases |s|
  {
    if s != [] && !IsSlugChar(s[0]) {
      DropRunKeepsClass(s[1..]);
    }
  }

  /** The letters and digits survive hyphenation, in order. */
  lemma {:induction false} HyphenateRunsKeepsClass(s: string)
    ensures Filter(HyphenateRuns(s), IsSlugChar) == Filter(s, IsSlugChar)
    decreases |s|
  {
    if s != [] {
      var r := HyphenateRuns(s);
      if IsSlugChar(s[0]) {
        HyphenateRunsKeepsClass(s[1..]);
        assert r[1..] == HyphenateRuns(s[1..]);
      } else {
        var d := DropRun(s[1..]);
        HyphenateRunsKeepsClass(d);
        DropRunKeepsClass(s[1..]);
        assert r[1..] == HyphenateRuns(d);
      }
    }
  }

  /** Trimming hyphens drops no letter or digit. */
  lemma TrimKeepsClass(s: string)
    ensures Filter(TrimHyphens(s), IsSlugChar) == Filter(s, IsSlugChar)
  {
    var t := if s != [] && s[0] == '-' then s[1..] else s;
    if s != [] && s[0] == '-' {
      assert Filter(s, IsSlugChar) == [] + Filter(s[1..], IsSlugChar);
    }
    if t != [] && t[|t| - 1] == '-' {
      var u := t[..|t| - 1];
      assert t == u + ['-'];
      FilterAppend(u, ['-'], IsSlugChar);
      assert Filter(['-'], IsSlugChar) == [];
      assert TrimHyphens(s) == u;
    } else {
      assert TrimHyphens(s) == t;
    }
  }

  /** The slug keeps exactly the title's (lower-cased) letters and digits,
      in order; everything else is hyphens. */
  lemma SlugKeepsLettersAndDigits(title: string)
    ensures Filter(Slug(title), IsSlugChar) == Filter(Lower(title), IsSlugChar)
  {
    HyphenateRunsKeepsClass(Lower(title));
    TrimKeepsClass(HyphenateRuns(Lower(title)));
  }

  /** The slug is empty exactly when the title has no ASCII letter or digit,
      as for a title made only of punctuation. */
  lemma EmptySlug(title: string)
    ensures Slug(title) == [] <==> Filter(Lower(title), IsSlugChar) == []
  {
    SlugKeepsLettersAndDigits(title);
    SlugIsSlug(title);
    var s := Slug(title);
    if s != [] {
      assert IsSlugChar(s[0]);
      FilterComplete(s, IsSlugChar);
      assert s[0] in Filter(s, IsSlugChar);
    }
  }

  /** The shape survives dropping the first character, and after a hyphen
      comes a letter, a digit or the end. */
  lemma HyphenatedTail(s: string)
    requires Hyphenated(s) && s != []
    ensures Hyphenated(s[1..])
    ensures s[0] == '-' ==> s[1..] == [] || IsSlugChar(s[1])
  {
    HyphenatedSlice(s, 1, |s|);
  }

  /** Text of the slug shape passes through hyphenation unchanged. */
  lemma {:induction false} HyphenateRunsFixesSlugs(s: string)
    requires Hyphenated(s)
    ensures HyphenateRuns(s) == s
    decreases |s|
  {
    if s != [] {
      var rest := s[1..];
      HyphenatedTail(s);
      HyphenateRunsFixesSlugs(rest);
      if IsSlugChar(s[0]) {
        assert HyphenateRuns(s) == [s[0]] + rest;
      } else {
        assert DropRun(rest) == rest;
        assert HyphenateRuns(s) == "-" + rest;
      }
    }
  }

  /** Text made only of lower-case letters and digits. */
  predicate IsWord(w: string) {
    forall i :: 0 <= i < |w| ==> IsSlugChar(w[i])
  }

  /** Text with no lower-case letter or digit. */
  predicate IsSeparator(p: string) {
    forall i :: 0 <= i < |p| ==> !IsSlugChar(p[i])
  }

  /** Text starting with a letter or digit keeps it at the front. */
  lemma WordStep(w: string, t: string)
    requires w != [] && IsSlugChar(w[0])
    ensures HyphenateRuns(w + t) == [w[0]] + HyphenateRuns(w[1..] + t)
  {
    assert (w + t)[0] == w[0] && (w + t)[1..] == w[1..] + t;
  }

  /** A leading word passes through hyphenation unchanged. */
  lemma {:induction false} HyphenateWordPrefix(w: string, t: string)
    requires IsWord(w)
    ensures HyphenateRuns(w + t) == w + HyphenateRuns(t)
    decreases |w|
  {
    if w == [] {
      assert w + t == t;
    } else {
      var rest := w[1..];
      assert IsWord(rest) by {
        forall i | 0 <= i < |rest|
          ensures IsSlugChar(rest[i])
        {
          assert rest[i] == w[i + 1];
        }
      }
      WordStep(w, t);
      HyphenateWordPrefix(rest, t);
      assert [w[0]] + (rest + HyphenateRuns(t)) == ([w[0]] + rest) + HyphenateRuns(t);
      assert [w[0]] + rest == w;
    }
  }

  /** A separator run in front of a word is dropped whole. */
  lemma {:induction false} DropRunBeforeWord(p: string, w: string)
    requires IsSeparator(p) && IsWord(w)
    ensures DropRun(p + w) == w
    decreases |p|
  {
    if p == [] {
      assert p + w == w;
      assert w == [] || IsSlugChar(w[0]);
    } else {
      var tail := p[1..];
      assert IsSeparator(tail) by {
        forall i | 0 <= i < |tail|
          ensures !IsSlugChar(tail[i])
        {
          assert tail[i] == p[i + 1];
        }
      }
      assert (p + w)[0] == p[0] && (p + w)[1..] == tail + w;
      DropRunBeforeWord(tail, w);
    }
  }

  /** Text starting outside the class starts its hyphenation with "-". */
  lemma SeparatorStep(p: string, w: string)
    requires p != [] && !IsSlugChar(p[0])
    ensures HyphenateRuns(p + w) == "-" + HyphenateRuns(DropRun(p[1..] + w))
  {
    assert (p + w)[0] == p[0] && (p + w)[1..] == p[1..] + w;
  }

  /** A separator run followed by a word becomes a hyphen and the word. */
  lemma SeparatorThenWord(p: string, w: string)
    requires IsWord(w) && IsSeparator(p) && p != []
    ensures HyphenateRuns(p + w) == "-" + w
  {
    var tail := p[1..];
    assert IsSeparator(tail) by {
      forall i | 0 <= i < |tail|
        ensures !IsSlugChar(tail[i])
      {
        assert tail[i] == p[i + 1];
      }
    }
    DropRunBeforeWord(tail, w);
    HyphenateRunsFixesSlugs(w);
    SeparatorStep(p, w);
  }

  /** A run of separators between two words becomes exactly one hyphen. */
  lemma SeparatorRunBecomesHyphen(w1: string, p: string, w2: string)
    requires IsWord(w1) && IsWord(w2) && IsSeparator(p) && p != []
    ensures HyphenateRuns(w1 + (p + w2)) == w1 + ("-" + w2)
  {
    HyphenateWordPrefix(w1, p + w2);
    SeparatorThenWord(p, w2);
  }

  /** Lower-casing leaves the words alone. */
  lemma LowerAroundWords(w1: string, p: string, w2: string)
    requires IsWord(w1) && IsWord(w2)
    ensures Lower(w1 + p + w2) == w1 + (Lower(p) + w2)
  {
    var s, t := w1 + p + w2, w1 + (Lower(p) + w2);
    forall i | 0 <= i < |s|
      ensures Lower(s)[i] == t[i]
    {
      if i < |w1| {
        assert s[i] == w1[i] && t[i] == w1[i];
      } else if i < |w1| + |p| {
        assert s[i] == p[i - |w1|] && t[i] == Lower(p)[i - |w1|];
      } else {
        assert s[i] == w2[i - |w1| - |p|] && t[i] == w2[i - |w1| - |p|];
      }
    }
  }

  /** Two lower-case words with a run of anything but ASCII letters and
      digits between them give the two words joined by one hyphen, as
      "summer" + " & " + "gala" gives "summer-gala". */
  lemma SlugJoinsWords(w1: string, p: string, w2: string)
    requires IsWord(w1) && IsWord(w2) && w1 != [] && w2 != [] && p != []
    requires forall i :: 0 <= i < |p| ==> !IsSlugChar(ToLowerAscii(p[i]))
    ensures Slug(w1 + p + w2) == w1 + "-" + w2
  {
    var lp := Lower(p);
    LowerAroundWords(w1, p, w2);
    assert IsSeparator(lp);
    SeparatorRunBecomesHyphen(w1, lp, w2);
    var h := w1 + ("-" + w2);
    assert h[0] == w1[0] && h[|h| - 1] == w2[|w2| - 1];
    assert TrimHyphens(h) == h;
    assert h == w1 + "-" + w2;
  }

  /** A slug is its own slug, so deriving the slug twice changes nothing. */
  lemma SlugOfSlug(s: string)
    requires IsSlug(s)
    ensures Slug(s) == s
  {
    forall i | 0 <= i < |s|
      ensures Lower(s)[i] == s[i]
    {
      assert IsSlugChar(s[i]) || s[i] == '-';
    }
    assert Lower(s) == s;
    HyphenateRunsFixesSlugs(s);
    assert TrimHyphens(s) == s;
  }

  lemma SlugIdempotent(title: string)
    ensures Slug(Slug(title)) == Slug(title)
  {
    SlugIsSlug(title);
    SlugOfSlug(Slug(title));
  }

  // ---------------------------------------------------------------------
  // The form

  const UploadFailedMessage := "Failed to upload thumbnail image"
  const CreateFailedMessage := "Failed to create event"
  const InvalidFileMessage := "Invalid file"

  /** The page's state. `navigatedTo` records `router.push`. */
  class NewEventForm {
    var title: string
    var date: string
    var location: string
    var description: string
    var thumbnailFile: Option<File>
    var thumbnailPreview: string
    var isLoading: bool
    var error: string
    var navigatedTo: Option<string>

    constructor ()
      ensures title == "" && date == "" && location == "" && description == ""
      ensures thumbnailFile == None && thumbnailPreview == "" && !isLoading && error == ""
      ensures navigatedTo == None
    {
      title, date, location, description := "", "", "", "";
      thumbnailFile, thumbnailPreview := None, "";
      isLoading, error := false, "";
      navigatedTo := None;
    }

    /** The file input's change handler. No file: nothing happens. A file
        over its size cap: the validation message is shown and the previous
        thumbnail stays. Otherwise the file and its preview are taken and the
        error is cleared. */
    method HandleThumbnailChange(file: Option<File>, objectUrl: string)
      modifies this
      ensures title == old(title) && date == old(date) && location == old(location)
      ensures description == old(description) && isLoading == old(isLoading) && navigatedTo == old(navigatedTo)
      ensures file.None? ==> thumbnailFile == old(thumbnailFile) && thumbnailPreview == old(thumbnailPreview)
                             && error == old(error)
      ensures file.Some? && !ValidateFileSize(file.value).valid ==>
                thumbnailFile == old(thumbnailFile) && thumbnailPreview == old(thumbnailPreview)
                && error == ValidateFileSize(file.value).message.GetOr(InvalidFileMessage)
      ensures file.Some? && ValidateFileSize(file.value).valid ==>
                thumbnailFile == file && thumbnailPreview == objectUrl && error == ""
    {
      if file.None? {
        return;
      }
      var validation := ValidateFileSize(file.value);
      if !validation.valid {
        error := validation.message.GetOr(InvalidFileMessage);
        return;
      }
      thumbnailFile := file;
      thumbnailPreview := objectUrl;
      error := "";
    }

    /** The event `handleSubmit` writes: the form's fields, the date as the
        typed string, the uploaded thumbnail's URL (or "" without one), and
        no media. */
    ghost function Submitted(thumbnailUrl: string): NewEvent
      reads this
    {
      NewEvent(title, Text(date), location, thumbnailUrl, description, None, Some([]))
    }

    /** `handleSubmit`. If a thumbnail was picked it is posted to the media
        host's folder for the slug (the request is returned as `sent`), and a
        failed upload or a reply without a URL stops the submit before any
        write. Then the event is written; on success the page moves to the
        new event's page, keyed by the store's fresh key, not the slug. Every
        path ends with `isLoading` false, and the form's fields are kept. */
    method HandleSubmit(store: EventStore, env: Env, uploadResponse: HttpResponse, now: int, writeOk: bool)
      returns (sent: Option<UploadRequest>)
      modifies this, store
      ensures title == old(title) && date == old(date) && location == old(location)
      ensures description == old(description) && thumbnailFile == old(thumbnailFile)
      ensures thumbnailPreview == old(thumbnailPreview) && !isLoading
      ensures old(thumbnailFile).None? ==> sent.None?
      ensures old(thumbnailFile).Some? ==> sent == Some(ImageUploadRequest(old(thumbnailFile).value, Slug(old(title)), env))
      ensures var upload := UploadResultOf(uploadResponse);
        old(thumbnailFile).Some? && !Uploaded(upload) ==>
          error == UploadFailedMessage && store.docs == old(store.docs) && navigatedTo == old(navigatedTo)
      ensures var upload := UploadResultOf(uploadResponse);
        (old(thumbnailFile).None? || Uploaded(upload)) && !writeOk ==>
          error == CreateFailedMessage && store.docs == old(store.docs) && navigatedTo == old(navigatedTo)
      ensures var upload := UploadResultOf(uploadResponse);
        var thumbnailUrl := if old(thumbnailFile).Some? && upload.url.Some? then upload.url.value else "";
        (old(thumbnailFile).None? || Uploaded(upload)) && writeOk ==>
          error == "" &&
          exists key :: key !in old(store.docs) && store.docs == old(store.docs)[key := NewDoc(Submitted(thumbnailUrl), now)]
                        && navigatedTo == Some("/admin/events/" + key)
    {
      isLoading := true;
      error := "";
      sent := None;

      var slug := Slug(title);
      var thumbnailUrl := "";
      if thumbnailFile.Some? {
        sent := Some(ImageUploadRequest(thumbnailFile.value, slug, env));
        var uploadResult := UploadResultOf(uploadResponse);
        if !Uploaded(uploadResult) {
          error := UploadFailedMessage;
          isLoading := false;
          return;
        }
        thumbnailUrl := uploadResult.url.value;
      }

      var result := CreateEvent(store, NewEvent(title, Text(date), location, thumbnailUrl, description, None, Some([])),
                                now, writeOk);
      if !result.Success? {
        error := CreateFailedMessage;
        isLoading := false;
        return;
      }

      isLoading := false;
      navigatedTo := Some("/admin/events/" + result.id.value);
    }
  }
}
