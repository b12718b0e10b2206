/** The contact form of src/pages/StoryPage.tsx: a submit appends one entry
    to the `contactSubmissions` log in browser storage. The two timeouts
    that follow a submit (1 s, then 5 s) are the events `SubmitSettled` and
    `ThanksExpired`; the clock is given as parameters. */
module StoryPage {
  import opened Options
  import opened JsText
  import Storage

  datatype ContactForm = ContactForm(name: string, email: string, subject: string, message: string)

  const EmptyForm: ContactForm := ContactForm("", "", "", "")

  /** The `name` attribute of the input a change comes from. */
  datatype Field = Name | Email | Subject | Message

  /** `{ ...formData, id: Date.now().toString(), timestamp }`. */
  function NewSubmission(f: ContactForm, nowMillis: nat, isoNow: string): (s: Storage.Submission)
    ensures s.name == f.name && s.email == f.email && s.subject == f.subject && s.message == f.message
    ensures s.id == Decimal(nowMillis) && s.timestamp == isoNow
  {
    Storage.Submission(f.name, f.email, f.subject, f.message, Decimal(nowMillis), isoNow)
  }

  /** `handleChange`: the named field takes the value. */
  function WithField(f: ContactForm, field: Field, value: string): ContactForm
  {
    match field
    case Name => f.(name := value)
    case Email => f.(email := value)
    case Subject => f.(subject := value)
    case Message => f.(message := value)
  }

  /** A change sets the named field and leaves the other three alone. */
  lemma ChangeTouchesOneField(f: ContactForm, field: Field, value: string)
    ensures var g := WithField(f, field, value);
            && (g.name == if field == Name then value else f.name)
            && (g.email == if field == Email then value else f.email)
            && (g.subject == if field == Subject then value else f.subject)
            && (g.message == if field == Message then value else f.message)
  {
  }

  /** The submission id is the clock's reading, read back as a number. */
  lemma SubmissionIdIsTime(f: ContactForm, nowMillis: nat, isoNow: string)
    ensures ParseInt(NewSubmission(f, nowMillis, isoNow).id) == Some(nowMillis as int)
  {
    ParseIntDecimal(nowMillis);
  }

  class StoryPageView {
    var formData: ContactForm
    var submitted: bool
    var isSubmitting: bool

    constructor ()
      ensures formData == EmptyForm && !submitted && !isSubmitting
    {
      formData, submitted, isSubmitting := EmptyForm, false, false;
    }

    method HandleChange(field: Field, value: string)
      modifies this`formData
      ensures formData == WithField(old(formData), field, value)
    {
      formData := WithField(formData, field, value);
    }

    /** The browser submits the form only when the Send button is enabled
        (it is disabled while a submit runs) and every `required` input
        holds some text. */
    predicate SubmitEnabled()
      reads this
    {
      && !isSubmitting
      && formData.name != "" && formData.email != "" && formData.subject != "" && formData.message != ""
    }

    /** `handleSubmit`: the stored log (`[]` when the key is missing) gets
        the new entry at its end, and nothing else in storage changes. */
    method HandleSubmit(store: Storage.BrowserStorage, nowMillis: nat, isoNow: string)
      requires SubmitEnabled()
      modifies this`isSubmitting, store
      ensures isSubmitting && formData == old(formData)
      ensures store.items == old(store.items)[Storage.SubmissionsKey :=
                Storage.SubmissionList(Storage.SubmissionsIn(old(store.items)) + [NewSubmission(formData, nowMillis, isoNow)])]
      ensures Storage.SubmissionsIn(store.items) == Storage.SubmissionsIn(old(store.items)) + [NewSubmission(formData, nowMillis, isoNow)]
    {
      isSubmitting := true;
      var submissions := Storage.SubmissionsIn(store.items);
      var entry := NewSubmission(formData, nowMillis, isoNow);
      submissions := submissions + [entry];
      store.items := store.items[Storage.SubmissionsKey := Storage.SubmissionList(submissions)];
    }

    /** The first timeout: the thanks message shows and the form empties. */
    method SubmitSettled()
      modifies this
      ensures !isSubmitting && submitted && formData == EmptyForm
    {
      isSubmitting, submitted, formData := false, true, EmptyForm;
    }

    /** The second timeout: the thanks message goes. */
    method ThanksExpired()
      modifies this`submitted
      ensures !submitted
    {
      submitted := false;
    }
  }

  /** A submit through the page: the earlier log is kept as a prefix, the
      one new entry at its end is the form as it was when submitted, with
      every field filled in, and the posts, images and pages in storage read
      as before. A second submit waits until the first has settled. */
  method SubmitAppendsOnly(v: StoryPageView, store: Storage.BrowserStorage, nowMillis: nat, isoNow: string)
    requires v.SubmitEnabled()
    modifies v, store
    ensures var before := Storage.SubmissionsIn(old(store.items));
            var after := Storage.SubmissionsIn(store.items);
            && |after| == |before| + 1 && after[..|before|] == before
            && after[|before|] == NewSubmission(old(v.formData), nowMillis, isoNow)
            && after[|before|].name != "" && after[|before|].email != ""
            && after[|before|].subject != "" && after[|before|].message != ""
    ensures !v.SubmitEnabled()
    ensures Storage.PostsIn(store.items) == Storage.PostsIn(old(store.items))
    ensures Storage.ImagesIn(store.items) == Storage.ImagesIn(old(store.items))
    ensures Storage.PagesIn(store.items) == Storage.PagesIn(old(store.items))
  {
    ghost var items := store.items;
    v.HandleSubmit(store, nowMillis, isoNow);
    Storage.WritesStayUnderTheirKey(items, store.items[Storage.SubmissionsKey]);
  }
}
