/** The landing-page image admin of
    src/components/admin/LandingPageImagesManager.tsx: the file check of
    the upload input, the form with its defaults, and the save, edit, reset
    and delete handlers over the record store. */
module LandingImagesAdmin {
  import opened Options
  import opened Records
  import opened JsText
  import Base64
  import Tables
  import Database
  import opened AdminUi

  const Sections: seq<string> := ["hero", "gallery", "features", "testimonials"]
  const MaxFileSize: nat := 5 * 1024 * 1024
  const AllowedFormats: seq<string> := ["image/jpeg", "image/png", "image/webp"]

  const FormatMessage: string := "Only JPG, PNG, and WebP formats are allowed"
  const SizeMessage: string := "File size must be less than 5MB"
  const NoImageMessage: string := "Please upload an image"
  const UpdatedMessage: string := "Image updated successfully"
  const CreatedMessage: string := "Image uploaded successfully"
  const DeletedMessage: string := "Image deleted successfully"

  /** The refusal `handleFileUpload` reports, if any: the format is checked
      before the size, and exactly 5 MiB passes. */
  function UploadProblem(f: PickedFile): (r: Option<string>)
  {
    AdminUi.FileProblem(AllowedFormats, MaxFileSize, FormatMessage, SizeMessage, f)
  }

  /** GIF, which the upload service accepts, is refused; a file of exactly
      5 MiB in an allowed format passes and one byte more does not. */
  lemma FileChecks(f: PickedFile)
    ensures f.fileType == "image/gif" ==> UploadProblem(f) == Some(FormatMessage)
    ensures f.fileType in AllowedFormats && |f.bytes| == 5 * 1024 * 1024 ==> UploadProblem(f).None?
    ensures f.fileType in AllowedFormats && |f.bytes| == 5 * 1024 * 1024 + 1 ==> UploadProblem(f) == Some(SizeMessage)
  {
  }

  const DefaultForm: GalleryForm := GalleryForm("", "", "", 0, 0, "hero", true)

  /** The form `handleEditImage` fills from a row; a missing alt text becomes ''. */
  function EditForm(g: GalleryImage): (f: GalleryForm)
  {
    GalleryForm(g.image_url, g.image_name, GetOr(g.alt_text, ""), g.file_size, g.display_order, g.group, g.is_active)
  }

  /** Editing a row and saving the form unchanged writes back every field
      the form holds, with a missing alt text stored as ''. */
  lemma EditThenSave(g: GalleryImage, now: string)
    ensures var h := ApplyGalleryPatch(g, FormAsPatch(EditForm(g)), now);
            h == g.(alt_text := Some(GetOr(g.alt_text, "")), updated_at := now)
  {
  }

  /** `parseInt(value) || 0`: text without a leading number becomes 0. */
  function DisplayOrderOf(text: string): int
  {
    match ParseInt(text)
    case None => 0
    case Some(v) => v
  }

  /** A typed integer is read back, and text without digits is 0. */
  lemma DisplayOrderRoundTrip(n: nat, text: string)
    requires TrimStart(text) == [] || (DigitIn(TrimStart(text)[0], 10) < 0 && TrimStart(text)[0] != '-' && TrimStart(text)[0] != '+')
    ensures DisplayOrderOf(Decimal(n)) == n
    ensures DisplayOrderOf("-" + Decimal(n)) == -(n as int)
    ensures DisplayOrderOf(text) == 0
  {
    ParseIntDecimal(n);
    ParseIntNoDigits(text);
  }

  /** `filterSection || undefined`: the empty choice means no filter. */
  function SectionArgument(filterSection: string): Option<string>
  {
    if filterSection == "" then None else Some(filterSection)
  }

  /** With the empty choice the query is not narrowed to a section. */
  lemma EmptyFilterShowsAll(rows: seq<GalleryImage>)
    ensures multiset(Database.GalleryQuery(rows, SectionArgument(""))) == multiset(rows)
  {
  }

  predicate HasImage(f: GalleryForm) { f.image_url != "" && f.image_name != "" }

  /** The rows after the save handler's write: an update of the row being
      edited, or an insert. A failed write changes nothing. */
  function SavedRows(rows: seq<GalleryImage>, editing: Option<GalleryImage>, f: GalleryForm, newId: string,
                     now: string, writeError: bool): seq<GalleryImage>
  {
    if editing.Some? then
      if !writeError && Tables.HasKey(rows, Database.GalleryId, editing.value.id)
      then Tables.MapWhere(rows, Tables.KeyIs(Database.GalleryId, editing.value.id),
                           Database.RefreshGallery(FormAsPatch(f), now))
      else rows
    else if !writeError && !Tables.HasKey(rows, Database.GalleryId, newId)
    then rows + [GalleryFromForm(f, newId, now)]
    else rows
  }

  /** The write of `handleSave`; the store's result is not inspected. */
  method WriteForm(db: Database.DatabaseService, editing: Option<GalleryImage>, f: GalleryForm, newId: string,
                   now: string, writeError: bool)
    requires db.Valid()
    modifies db`landingImages
    ensures db.Valid()
    ensures db.landingImages == SavedRows(old(db.landingImages), editing, f, newId, now, writeError)
  {
    if editing.Some? {
      var _ := db.UpdateLandingPageImage(editing.value.id, FormAsPatch(f), now, writeError);
    } else {
      var _ := db.CreateLandingPageImage(f, newId, now, writeError);
    }
  }

  class LandingImagesManager {
    var images: seq<GalleryImage>
    var loading: bool
    var showForm: bool
    var editingImage: Option<GalleryImage>
    var saving: bool
    var filterSection: string
    var notification: Option<Notice>
    var formData: GalleryForm

    constructor ()
      ensures images == [] && !loading && !showForm && editingImage == None && !saving && filterSection == ""
      ensures notification == None && formData == DefaultForm
    {
      images, loading, showForm, editingImage, saving, filterSection := [], false, false, None, false, "";
      notification, formData := None, DefaultForm;
    }

    /** `loadImages`: the read returns no rows on error and does not throw. */
    method LoadImages(db: Database.DatabaseService, readError: bool)
      modifies this`images, this`loading
      ensures images == if readError then [] else Database.GalleryQuery(db.landingImages, SectionArgument(filterSection))
      ensures !loading
    {
      loading := true;
      images := db.GetLandingPageImages(SectionArgument(filterSection), readError);
      loading := false;
    }

    /** Choosing a section filter, and the reload it triggers. */
    method SetFilterSection(db: Database.DatabaseService, section: string, readError: bool)
      modifies this`filterSection, this`images, this`loading
      ensures filterSection == section && !loading
      ensures images == if readError then [] else Database.GalleryQuery(db.landingImages, SectionArgument(section))
    {
      filterSection := section;
      LoadImages(db, readError);
    }

    /** The timeout that hides a notification. */
    method DismissNotification()
      modifies this`notification
      ensures notification == None
    {
      notification := None;
    }

    method ResetForm()
      modifies this`formData, this`editingImage, this`showForm
      ensures formData == DefaultForm && editingImage == None && !showForm
    {
      formData, editingImage, showForm := DefaultForm, None, false;
    }

    method EditImage(g: GalleryImage)
      modifies this`formData, this`editingImage, this`showForm
      ensures editingImage == Some(g) && formData == EditForm(g) && showForm
    {
      editingImage, formData, showForm := Some(g), EditForm(g), true;
    }

    /** `handleFileUpload`. No file does nothing; a refused file only reports
        why. An accepted file sets the image, its name and its size once the
        reader finishes; a failed read leaves a `null` result, written here
        as the empty text. */
    method FileUpload(file: Option<PickedFile>, readOk: bool)
      modifies this`formData, this`notification
      ensures file.None? ==> formData == old(formData) && notification == old(notification)
      ensures file.Some? && UploadProblem(file.value).Some? ==>
                formData == old(formData) && notification == Some(Notice(Error, UploadProblem(file.value).value))
      ensures file.Some? && UploadProblem(file.value).None? ==>
                && notification == old(notification)
                && formData == old(formData).(image_url := if readOk then Base64.DataUrl(file.value.fileType, file.value.bytes) else "",
                                              image_name := file.value.name,
                                              file_size := |file.value.bytes|)
    {
      if file.None? {
        return;
      }
      var problem := UploadProblem(file.value);
      if problem.Some? {
        notification := Some(Notice(Error, problem.value));
        return;
      }
      var url := if readOk then Base64.DataUrl(file.value.fileType, file.value.bytes) else "";
      formData := formData.(image_url := url, image_name := file.value.name, file_size := |file.value.bytes|);
    }

    /** The "Upload Image" button. */
    method OpenForm()
      modifies this`showForm
      ensures showForm
    {
      showForm := true;
    }

    /** The section, alt-text and active inputs: each sets its own field only. */
    method SetSection(section: string)
      modifies this`formData
      ensures formData == old(formData).(section := section)
    {
      formData := formData.(section := section);
    }

    method SetAltText(text: string)
      modifies this`formData
      ensures formData == old(formData).(alt_text := text)
    {
      formData := formData.(alt_text := text);
    }

    method SetActive(checked: bool)
      modifies this`formData
      ensures formData == old(formData).(is_active := checked)
    {
      formData := formData.(is_active := checked);
    }

    /** The display-order input. */
    method SetDisplayOrder(text: string)
      modifies this`formData
      ensures formData == old(formData).(display_order := DisplayOrderOf(text))
    {
      formData := formData.(display_order := DisplayOrderOf(text));
    }

    /** `handleSave`. Without an image and a name the save is refused
        (`refused`) and only a notification is shown. Otherwise the row
        being edited is updated or a new one is created; the store reports
        a failed write as a null result, which the handler does not inspect,
        so the success notification follows either way. Then the list is
        reloaded and the form is reset. */
    method Save(db: Database.DatabaseService, newId: string, now: string, writeError: bool, readError: bool)
      returns (refused: bool)
      requires db.Valid()
      modifies this`formData, this`editingImage, this`showForm, this`notification, this`images, this`loading,
               this`saving, db`landingImages
      ensures db.Valid()
      ensures refused == !HasImage(old(formData))
      ensures refused ==> && db.landingImages == old(db.landingImages) && formData == old(formData)
                          && editingImage == old(editingImage) && images == old(images) && saving == old(saving)
                          && showForm == old(showForm)
                          && notification == Some(Notice(Error, NoImageMessage))
      ensures !refused ==>
                && db.landingImages == SavedRows(old(db.landingImages), old(editingImage), old(formData), newId, now, writeError)
                && notification == Some(Notice(Success, if old(editingImage).Some? then UpdatedMessage else CreatedMessage))
                && images == (if readError then [] else Database.GalleryQuery(db.landingImages, SectionArgument(filterSection)))
                && formData == DefaultForm && editingImage == None && !showForm && !saving
    {
      if !HasImage(formData) {
        notification := Some(Notice(Error, NoImageMessage));
        return true;
      }
      saving := true;
      WriteForm(db, editingImage, formData, newId, now, writeError);
      notification := Some(Notice(Success, if editingImage.Some? then UpdatedMessage else CreatedMessage));
      LoadImages(db, readError);
      ResetForm();
      saving := false;
      refused := false;
    }

    /** `handleDelete`: only after the user confirms; a failed delete is
        reported by the store as `false`, which the handler does not inspect. */
    method Delete(db: Database.DatabaseService, id: string, confirmed: bool, writeError: bool, readError: bool)
      requires db.Valid()
      modifies this`images, this`loading, this`notification, db`landingImages
      ensures db.Valid()
      ensures !confirmed ==> db.landingImages == old(db.landingImages) && images == old(images)
                             && notification == old(notification)
      ensures confirmed ==>
                && db.landingImages == (if writeError then old(db.landingImages)
                                        else Tables.RemoveWhere(old(db.landingImages), Tables.KeyIs(Database.GalleryId, id)))
                && notification == Some(Notice(Success, DeletedMessage))
                && images == (if readError then [] else Database.GalleryQuery(db.landingImages, SectionArgument(filterSection)))
    {
      if !confirmed {
        return;
      }
      var _ := db.DeleteLandingPageImage(id, writeError);
      notification := Some(Notice(Success, DeletedMessage));
      LoadImages(db, readError);
    }
  }
}
