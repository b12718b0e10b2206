/** The site-logo admin of src/components/admin/LogoManager.tsx: the logo is
    the `site_logo` row of the site settings, replaced by an uploaded image
    or reset to a default picture. */
module LogoAdmin {
  import opened Options
  import opened Records
  import Base64
  import Tables
  import Database
  import opened AdminUi

  const LogoKey: string := "site_logo"
  const LogoType: string := "image"
  const MaxFileSize: nat := 2 * 1024 * 1024
  const AllowedFormats: seq<string> := ["image/jpeg", "image/png", "image/webp", "image/svg+xml"]
  const DefaultLogo: string := "https://images.pexels.com/photos/1983032/pexels-photo-1983032.jpeg"

  const FormatMessage: string := "Only JPG, PNG, WebP, and SVG formats are allowed"
  const SizeMessage: string := "File size must be less than 2MB"
  const NoLogoMessage: string := "Please upload a logo"
  const SavedMessage: string := "Logo updated successfully"
  const ResetMessage: string := "Logo reset to default"

  /** The refusal of the logo input, if any: format first, then at most 2 MiB. */
  function UploadProblem(f: PickedFile): (r: Option<string>)
  {
    AdminUi.FileProblem(AllowedFormats, MaxFileSize, FormatMessage, SizeMessage, f)
  }

  /** SVG is accepted here, unlike on the landing images; GIF is not; the
      2 MiB ceiling is inclusive. */
  lemma LogoFileChecks(f: PickedFile)
    ensures f.fileType == "image/svg+xml" && |f.bytes| <= 2 * 1024 * 1024 ==> UploadProblem(f).None?
    ensures f.fileType == "image/gif" ==> UploadProblem(f) == Some(FormatMessage)
    ensures f.fileType in AllowedFormats && |f.bytes| == 2 * 1024 * 1024 + 1 ==> UploadProblem(f) == Some(SizeMessage)
  {
  }

  /** The value `getSiteSetting('site_logo')` reads: the first row with the key. */
  function StoredLogo(rows: seq<SiteSetting>): (r: Option<string>)
    ensures r.None? <==> !Tables.HasKey(rows, Database.SettingKey, LogoKey)
  {
    Tables.FindHasKey(rows, Database.SettingKey, LogoKey);
    match Tables.FindFirst(rows, Tables.KeyIs(Database.SettingKey, LogoKey))
    case None => None
    case Some(i) => Some(rows[i].setting_value)
  }

  /** With unique keys, any row holding the logo key is the one read. */
  lemma StoredLogoOfRow(rows: seq<SiteSetting>, row: SiteSetting)
    requires Tables.UniqueKey(rows, Database.SettingKey)
    requires row in rows && row.setting_key == LogoKey
    ensures StoredLogo(rows) == Some(row.setting_value)
  {
    Tables.FindHasKey(rows, Database.SettingKey, LogoKey);
    var i := Tables.FindFirst(rows, Tables.KeyIs(Database.SettingKey, LogoKey)).value;
    Tables.KeyIsApply(Database.SettingKey, LogoKey, rows[i]);
    Database.UpsertLeavesOneRow(rows, row);
  }

  /** Whether `updateSiteSetting` stores the value: the write must succeed,
      and a new row needs both a check that found nothing and a fresh id. */
  predicate WriteTakes(rows: seq<SiteSetting>, newId: string, checkError: bool, writeError: bool)
  {
    !writeError
    && (if Tables.HasKey(rows, Database.SettingKey, LogoKey) then !checkError
        else !Tables.HasKey(rows, Database.SettingId, newId))
  }

  /** The settings table after `updateSiteSetting('site_logo', value, 'image')`:
      the logo row is rewritten when there is one, a new row is added when
      there is none, and a failed call changes nothing. */
  function LogoRows(rows: seq<SiteSetting>, value: string, newId: string, now: string,
                    checkError: bool, writeError: bool): seq<SiteSetting>
  {
    if !WriteTakes(rows, newId, checkError, writeError) then rows
    else if Tables.HasKey(rows, Database.SettingKey, LogoKey)
    then Tables.MapWhere(rows, Tables.KeyIs(Database.SettingKey, LogoKey), Database.Rewrite(value, LogoType, now))
    else rows + [Database.NewSetting(LogoKey, value, LogoType, newId, now)]
  }

  /** Writing the logo leaves every other setting in the table. */
  lemma OtherSettingsKept(rows: seq<SiteSetting>, value: string, newId: string, now: string,
                          checkError: bool, writeError: bool, r: SiteSetting)
    requires r in rows && r.setting_key != LogoKey
    ensures r in LogoRows(rows, value, newId, now, checkError, writeError)
  {
    if WriteTakes(rows, newId, checkError, writeError) && Tables.HasKey(rows, Database.SettingKey, LogoKey) {
      var i :| 0 <= i < |rows| && rows[i] == r;
      Tables.KeyIsApply(Database.SettingKey, LogoKey, r);
      assert LogoRows(rows, value, newId, now, checkError, writeError)[i] == r;
    }
  }

  /** The write of the save and reset handlers: the logo row gets the value
      and the type 'image'. Its result is not inspected. */
  method WriteLogo(db: Database.DatabaseService, value: string, newId: string, now: string,
                   checkError: bool, writeError: bool)
    requires db.Valid()
    modifies db`siteSettings
    ensures db.Valid()
    ensures db.siteSettings == LogoRows(old(db.siteSettings), value, newId, now, checkError, writeError)
    ensures WriteTakes(old(db.siteSettings), newId, checkError, writeError) ==>
              && StoredLogo(db.siteSettings) == Some(value)
              && forall k :: 0 <= k < |db.siteSettings| && db.siteSettings[k].setting_key == LogoKey ==>
                   db.siteSettings[k].setting_value == value && db.siteSettings[k].setting_type == LogoType
  {
    var saved := db.UpdateSiteSetting(LogoKey, value, newId, now, checkError, writeError, LogoType);
    if saved.Some? {
      StoredLogoOfRow(db.siteSettings, saved.value);
      Database.UpsertLeavesOneRow(db.siteSettings, saved.value);
    }
  }

  class LogoManager {
    var currentLogo: string
    var loading: bool
    var saving: bool
    var showForm: bool
    var notification: Option<Notice>
    var newLogo: string
    var logoName: string

    constructor ()
      ensures currentLogo == "" && !loading && !saving && !showForm && notification == None
      ensures newLogo == "" && logoName == ""
    {
      currentLogo, loading, saving, showForm, notification := "", false, false, false, None;
      newLogo, logoName := "", "";
    }

    /** `loadLogo`: the shown logo changes only when the row is found; a
        failed read returns `null` and leaves it as it was. */
    method LoadLogo(db: Database.DatabaseService, readError: bool)
      requires db.Valid()
      modifies this`currentLogo, this`loading
      ensures !loading
      ensures currentLogo == if !readError && StoredLogo(db.siteSettings).Some? then StoredLogo(db.siteSettings).value
                             else old(currentLogo)
    {
      loading := true;
      var setting := db.GetSiteSetting(LogoKey, readError);
      if setting.Some? {
        StoredLogoOfRow(db.siteSettings, setting.value);
        currentLogo := setting.value.setting_value;
      }
      loading := false;
    }

    /** The "Upload New Logo" button. */
    method OpenForm()
      modifies this`showForm
      ensures showForm
    {
      showForm := true;
    }

    /** The timeout that hides a notification. */
    method DismissNotification()
      modifies this`notification
      ensures notification == None
    {
      notification := None;
    }

    /** `resetForm`: closes the form and forgets the picked logo. */
    method ResetForm()
      modifies this`showForm, this`newLogo, this`logoName
      ensures !showForm && newLogo == "" && logoName == ""
    {
      showForm, newLogo, logoName := false, "", "";
    }

    /** `handleFileUpload`: no file does nothing, a refused file only reports
        why, and an accepted one becomes the picked logo once read (a failed
        read leaves a `null` result, written here as the empty text). */
    method FileUpload(file: Option<PickedFile>, readOk: bool)
      modifies this`newLogo, this`logoName, this`notification
      ensures file.None? ==> newLogo == old(newLogo) && logoName == old(logoName) && notification == old(notification)
      ensures file.Some? && UploadProblem(file.value).Some? ==>
                && newLogo == old(newLogo) && logoName == old(logoName)
                && notification == Some(Notice(Error, UploadProblem(file.value).value))
      ensures file.Some? && UploadProblem(file.value).None? ==>
                && notification == old(notification) && logoName == file.value.name
                && newLogo == (if readOk then Base64.DataUrl(file.value.fileType, file.value.bytes) else "")
    {
      if file.None? {
        return;
      }
      var problem := UploadProblem(file.value);
      if problem.Some? {
        notification := Some(Notice(Error, problem.value));
        return;
      }
      newLogo := if readOk then Base64.DataUrl(file.value.fileType, file.value.bytes) else "";
      logoName := file.value.name;
    }

    /** `handleSave`: refused without a picked logo. Otherwise the logo row
        is written; the store reports a failed write as `null`, which the
        handler does not inspect, so the shown logo becomes the picked one
        and the form closes either way. */
    method Save(db: Database.DatabaseService, newId: string, now: string, checkError: bool, writeError: bool)
      returns (refused: bool)
      requires db.Valid()
      modifies this`currentLogo, this`saving, this`showForm, this`notification, this`newLogo, this`logoName,
               db`siteSettings
      ensures db.Valid()
      ensures refused == (old(newLogo) == "")
      ensures refused ==> && db.siteSettings == old(db.siteSettings) && currentLogo == old(currentLogo)
                          && newLogo == old(newLogo) && logoName == old(logoName) && showForm == old(showForm)
                          && saving == old(saving) && notification == Some(Notice(Error, NoLogoMessage))
      ensures !refused ==>
                && db.siteSettings == LogoRows(old(db.siteSettings), old(newLogo), newId, now, checkError, writeError)
                && (WriteTakes(old(db.siteSettings), newId, checkError, writeError) ==>
                      StoredLogo(db.siteSettings) == Some(old(newLogo)))
                && currentLogo == old(newLogo) && notification == Some(Notice(Success, SavedMessage))
                && !showForm && newLogo == "" && logoName == "" && !saving
    {
      if newLogo == "" {
        notification := Some(Notice(Error, NoLogoMessage));
        return true;
      }
      saving := true;
      WriteLogo(db, newLogo, newId, now, checkError, writeError);
      currentLogo := newLogo;
      notification := Some(Notice(Success, SavedMessage));
      showForm, newLogo, logoName := false, "", "";
      saving := false;
      refused := false;
    }

    /** `handleDelete`: after the user confirms, the logo row is set to the
        default picture (the row is not removed), with the same unchecked
        write as a save. */
    method Reset(db: Database.DatabaseService, confirmed: bool, newId: string, now: string,
                 checkError: bool, writeError: bool)
      requires db.Valid()
      modifies this`currentLogo, this`saving, this`showForm, this`notification, this`newLogo, this`logoName,
               db`siteSettings
      ensures db.Valid()
      ensures !confirmed ==> && db.siteSettings == old(db.siteSettings) && currentLogo == old(currentLogo)
                             && notification == old(notification) && newLogo == old(newLogo)
                             && logoName == old(logoName) && showForm == old(showForm) && saving == old(saving)
      ensures confirmed ==>
                && db.siteSettings == LogoRows(old(db.siteSettings), DefaultLogo, newId, now, checkError, writeError)
                && (WriteTakes(old(db.siteSettings), newId, checkError, writeError) ==>
                      StoredLogo(db.siteSettings) == Some(DefaultLogo))
                && currentLogo == DefaultLogo && notification == Some(Notice(Success, ResetMessage))
                && !showForm && newLogo == "" && logoName == "" && !saving
    {
      if !confirmed {
        return;
      }
      saving := true;
      WriteLogo(db, DefaultLogo, newId, now, checkError, writeError);
      currentLogo := DefaultLogo;
      notification := Some(Notice(Success, ResetMessage));
      showForm, newLogo, logoName := false, "", "";
      saving := false;
    }
  }

  /** A logo whose save was stored is what the next load shows. */
  method SaveThenLoad(db: Database.DatabaseService, m: LogoManager, newId: string, now: string)
    requires db.Valid() && m.newLogo != ""
    requires WriteTakes(db.siteSettings, newId, false, false)
    modifies m, db`siteSettings
    ensures m.currentLogo == old(m.newLogo)
  {
    var _ := m.Save(db, newId, now, false, false);
    m.LoadLogo(db, false);
  }
}
