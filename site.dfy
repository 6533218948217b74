/** The route handlers of the site over one application state: the admin session
    flag, the news and gallery JSON files, the beneficiary table and the uploads
    directory. */
module Routes {
  import opened Wrappers
  import opened Text
  import opened Uploads
  import opened JsonStore
  import opened News
  import opened Gallery
  import opened Beneficiaries

  const AdminUsername: string := "imedisxidi2025"
  const AdminPassword: string := "mutlaobamikvars"

  datatype Page = LoginPage | DashboardPage | EditPage | NewsPage | GalleryPage | HomePage

  /** What a handler answers. `RedirectToRequest` is `redirect(request.url)`;
      `ServerError` is an exception escaping the handler. */
  datatype Response =
    | Redirect(to: Page)
    | RedirectToRequest
    | Render(page: Page)
    | NotFound
    | ServerError

  class Site {
    var loggedIn: bool
    var newsFile: FileState<Article>
    var galleryFile: FileState<Image>
    var table: map<int, Beneficiary>
    var uploads: set<string>

    /** A fresh browser session over existing stores: not logged in. */
    constructor (newsFile: FileState<Article>, galleryFile: FileState<Image>,
                 table: map<int, Beneficiary>, uploads: set<string>)
      ensures !loggedIn
      ensures this.newsFile == newsFile && this.galleryFile == galleryFile
      ensures this.table == table && this.uploads == uploads
    {
      loggedIn := false;
      this.newsFile := newsFile;
      this.galleryFile := galleryFile;
      this.table := table;
      this.uploads := uploads;
    }

    /** `index`: every beneficiary, the three newest articles and the whole gallery. */
    method Index() returns (beneficiaries: map<int, Beneficiary>, latest: seq<Article>, gallery: seq<Image>)
      ensures beneficiaries == table
      ensures latest == LatestNews(LoadData(newsFile))
      ensures gallery == LoadData(galleryFile)
    {
      beneficiaries := table;
      var news := LoadData(newsFile);
      gallery := LoadData(galleryFile);
      latest := LatestNews(news);
    }

    /** `admin_login` on POST: the flag is set only when both fields match. */
    method AdminLogin(username: string, password: string) returns (resp: Response)
      modifies this
      ensures username == AdminUsername && password == AdminPassword ==>
        loggedIn && resp == Redirect(DashboardPage)
      ensures !(username == AdminUsername && password == AdminPassword) ==>
        resp == Render(LoginPage) && unchanged(this)
      ensures newsFile == old(newsFile) && galleryFile == old(galleryFile)
      ensures table == old(table) && uploads == old(uploads)
    {
      if username == AdminUsername && password == AdminPassword {
        loggedIn := true;
        return Redirect(DashboardPage);
      }
      resp := Render(LoginPage);
    }

    /** `admin_logout`: the flag is cleared whatever it was. */
    method AdminLogout() returns (resp: Response)
      modifies this
      ensures !loggedIn && resp == Redirect(LoginPage)
      ensures newsFile == old(newsFile) && galleryFile == old(galleryFile)
      ensures table == old(table) && uploads == old(uploads)
    {
      loggedIn := false;
      resp := Redirect(LoginPage);
    }

    /** `admin_dashboard`: the gate, then every beneficiary row (the display order
        by descending id is not modelled). */
    method AdminDashboard() returns (resp: Response, rows: map<int, Beneficiary>)
      ensures !loggedIn ==> resp == Redirect(LoginPage) && rows == map[]
      ensures loggedIn ==> resp == Render(DashboardPage) && rows == table
    {
      if !loggedIn { return Redirect(LoginPage), map[]; }
      resp, rows := Render(DashboardPage), table;
    }

    /** `add_beneficiary`: one new row whose collected amount is 0 and whose image
        follows `NewImageUrl`; a blank name with neither upload nor URL raises
        before anything is added. */
    method AddBeneficiary(name: string, story: string, amountNeeded: int, formUrl: string,
                          photo: Option<string>, sanitize: string -> string, freshId: int)
      returns (resp: Response)
      requires freshId !in table
      modifies this
      ensures !old(loggedIn) ==> resp == Redirect(LoginPage) && unchanged(this)
      ensures old(loggedIn) ==> loggedIn && newsFile == old(newsFile) && galleryFile == old(galleryFile)
      ensures old(loggedIn) ==>
        uploads == if AcceptsUpload(photo) then old(uploads) + {sanitize(photo.value)} else old(uploads)
      ensures old(loggedIn) ==>
        match NewImageUrl(name, formUrl, photo, sanitize)
        case None => resp == ServerError && table == old(table)
        case Some(url) =>
          && resp == Redirect(DashboardPage)
          && table == old(table)[freshId := Beneficiary(name, story, url, amountNeeded, 0)]
    {
      if !loggedIn { return Redirect(LoginPage); }
      var imagePath := "";
      if photo.Some? {
        var filename := photo.value;
        if filename != "" && AllowedFile(filename) {
          var stored := sanitize(filename);
          uploads := uploads + {stored};
          imagePath := UploadRef(stored);
          UploadRefRoundTrip(stored);
        }
      }
      if imagePath == "" && formUrl != "" { imagePath := formUrl; }
      if imagePath == "" {
        var word := FirstWord(name);
        if word.None? { return ServerError; }
        imagePath := Placeholder(word.value);
      }
      table := table[freshId := Beneficiary(name, story, imagePath, amountNeeded, 0)];
      resp := Redirect(DashboardPage);
    }

    /** `edit_beneficiary` on GET: the gate, then the record or not-found. */
    method ShowEditForm(id: int) returns (resp: Response, record: Option<Beneficiary>)
      ensures !loggedIn ==> resp == Redirect(LoginPage) && record == None
      ensures loggedIn && id !in table ==> resp == NotFound && record == None
      ensures loggedIn && id in table ==> resp == Render(EditPage) && record == Some(table[id])
    {
      if !loggedIn { return Redirect(LoginPage), None; }
      if id !in table { return NotFound, None; }
      resp, record := Render(EditPage), Some(table[id]);
    }

    /** `edit_beneficiary` on POST: every scalar field is replaced, the image
        follows `EditedImageUrl`, and no other row changes. */
    method EditBeneficiary(id: int, name: string, story: string, amountNeeded: int, amountCollected: int,
                           formUrl: string, photo: Option<string>, sanitize: string -> string)
      returns (resp: Response)
      modifies this
      ensures !old(loggedIn) ==> resp == Redirect(LoginPage) && unchanged(this)
      ensures old(loggedIn) && id !in old(table) ==> resp == NotFound && unchanged(this)
      ensures old(loggedIn) && id in old(table) ==>
        && resp == Redirect(DashboardPage)
        && loggedIn && newsFile == old(newsFile) && galleryFile == old(galleryFile)
        && table == old(table)[id := Beneficiary(name, story,
             EditedImageUrl(old(table)[id].imageUrl, formUrl, photo, sanitize), amountNeeded, amountCollected)]
        && uploads == if AcceptsUpload(photo) then old(uploads) + {sanitize(photo.value)} else old(uploads)
    {
      if !loggedIn { return Redirect(LoginPage); }
      if id !in table { return NotFound; }
      var record := table[id];
      record := record.(name := name, story := story);
      record := record.(amountNeeded := amountNeeded, amountCollected := amountCollected);
      if photo.Some? {
        var filename := photo.value;
        if filename != "" && AllowedFile(filename) {
          var stored := sanitize(filename);
          uploads := uploads + {stored};
          record := record.(imageUrl := UploadRef(stored));
        } else if formUrl != "" && record.imageUrl != formUrl {
          record := record.(imageUrl := formUrl);
        }
      }
      table := table[id := record];
      resp := Redirect(DashboardPage);
    }

    /** `delete_beneficiary`: the row is gone afterwards; a missing id is not-found. */
    method DeleteBeneficiary(id: int) returns (resp: Response)
      modifies this
      ensures !old(loggedIn) ==> resp == Redirect(LoginPage) && unchanged(this)
      ensures old(loggedIn) && id !in old(table) ==> resp == NotFound && unchanged(this)
      ensures old(loggedIn) && id in old(table) ==>
        && resp == Redirect(DashboardPage) && table == old(table) - {id}
        && loggedIn && newsFile == old(newsFile) && galleryFile == old(galleryFile) && uploads == old(uploads)
    {
      if !loggedIn { return Redirect(LoginPage); }
      if id !in table { return NotFound; }
      table := table - {id};
      resp := Redirect(DashboardPage);
    }

    /** `manage_news` on GET: the gate, then every article, highest id first. */
    method ListNews() returns (resp: Response, shown: seq<Article>)
      ensures !loggedIn ==> resp == Redirect(LoginPage) && shown == []
      ensures loggedIn ==> resp == Render(NewsPage) && shown == SortByIdDesc(LoadData(newsFile))
    {
      if !loggedIn { return Redirect(LoginPage), []; }
      var newsList := LoadData(newsFile);
      shown := SortByIdDesc(newsList);
      resp := Render(NewsPage);
    }

    /** `manage_news` on POST: exactly one article, with an id below 2^64, is
        appended after the articles already in the file. */
    method AddNews(title: string, content: string, uuid: nat) returns (resp: Response)
      modifies this
      ensures !old(loggedIn) ==> resp == Redirect(LoginPage) && unchanged(this)
      ensures old(loggedIn) ==>
        && resp == Redirect(NewsPage)
        && newsFile == Valid(LoadData(old(newsFile)) + [Article(NewsId(uuid), title, content)])
        && loggedIn && galleryFile == old(galleryFile) && table == old(table) && uploads == old(uploads)
    {
      if !loggedIn { return Redirect(LoginPage); }
      var newsList := LoadData(newsFile);
      var newId := NewsId(uuid);
      newsList := newsList + [Article(newId, title, content)];
      newsFile := SaveData(newsList);
      resp := Redirect(NewsPage);
    }

    /** `delete_news`: the file is rewritten without the articles carrying the id. */
    method DeleteNews(newsId: nat) returns (resp: Response)
      modifies this
      ensures !old(loggedIn) ==> resp == Redirect(LoginPage) && unchanged(this)
      ensures old(loggedIn) ==>
        && resp == Redirect(NewsPage)
        && newsFile == Valid(Without(LoadData(old(newsFile)), ArticleId, newsId))
        && loggedIn && galleryFile == old(galleryFile) && table == old(table) && uploads == old(uploads)
    {
      if !loggedIn { return Redirect(LoginPage); }
      var newsList := LoadData(newsFile);
      newsList := Without(newsList, ArticleId, newsId);
      newsFile := SaveData(newsList);
      resp := Redirect(NewsPage);
    }

    /** `manage_gallery` on GET: the gate, then the gallery list as stored. */
    method ListGallery() returns (resp: Response, shown: seq<Image>)
      ensures !loggedIn ==> resp == Redirect(LoginPage) && shown == []
      ensures loggedIn ==> resp == Render(GalleryPage) && shown == LoadData(galleryFile)
    {
      if !loggedIn { return Redirect(LoginPage), []; }
      shown := LoadData(galleryFile);
      resp := Render(GalleryPage);
    }

    /** `manage_gallery` on POST: a missing or unnamed photo is sent back, a name
        with a refused extension is ignored, and an accepted upload is stored and
        recorded by one appended record. The stored name is
        `secure_filename(f"{uuid.uuid4()}_{file.filename}")`, with the sanitiser and
        the textual uuid (`token`) given by the caller. */
    method AddGalleryImage(description: string, photo: Option<string>, token: string,
                           sanitize: string -> string)
      returns (resp: Response)
      modifies this
      ensures !old(loggedIn) ==> resp == Redirect(LoginPage) && unchanged(this)
      ensures old(loggedIn) && (photo.None? || photo.value == "") ==>
        resp == RedirectToRequest && unchanged(this)
      ensures old(loggedIn) && photo.Some? && photo.value != "" && !AllowedFile(photo.value) ==>
        resp == Render(GalleryPage) && unchanged(this)
      ensures old(loggedIn) && AcceptsUpload(photo) ==>
        var stored := sanitize(token + "_" + photo.value);
        && resp == Redirect(GalleryPage)
        && galleryFile == Valid(LoadData(old(galleryFile)) + [NewImage(stored, description)])
        && uploads == old(uploads) + {stored}
        && loggedIn && newsFile == old(newsFile) && table == old(table)
      ensures BackedByUploads(LoadData(old(galleryFile)), old(uploads)) ==>
        BackedByUploads(LoadData(galleryFile), uploads)
    {
      if !loggedIn { return Redirect(LoginPage); }
      var galleryList := LoadData(galleryFile);
      if photo.None? || photo.value == "" { return RedirectToRequest; }
      var filename := photo.value;
      if AllowedFile(filename) {
        var stored := sanitize(token + "_" + filename);
        uploads := uploads + {stored};
        if BackedByUploads(galleryList, old(uploads)) {
          BackedAfterAdd(galleryList, old(uploads), stored, description);
        }
        galleryList := galleryList + [NewImage(stored, description)];
        galleryFile := SaveData(galleryList);
        return Redirect(GalleryPage);
      }
      resp := Render(GalleryPage);
    }

    /** `delete_gallery_image`: the stored file is removed if it exists (a failed
        removal is ignored) and the file is rewritten without the records carrying
        the id. */
    method DeleteGalleryImage(imageId: string) returns (resp: Response)
      modifies this
      ensures !old(loggedIn) ==> resp == Redirect(LoginPage) && unchanged(this)
      ensures old(loggedIn) ==>
        && resp == Redirect(GalleryPage)
        && galleryFile == Valid(Without(LoadData(old(galleryFile)), ImageId, imageId))
        && uploads == old(uploads) - {imageId}
        && loggedIn && newsFile == old(newsFile) && table == old(table)
      ensures BackedByUploads(LoadData(old(galleryFile)), old(uploads)) ==>
        BackedByUploads(LoadData(galleryFile), uploads)
    {
      if !loggedIn { return Redirect(LoginPage); }
      var galleryList := LoadData(galleryFile);
      if BackedByUploads(galleryList, uploads) {
        BackedAfterDelete(galleryList, uploads, imageId);
      }
      uploads := uploads - {imageId};
      galleryList := Without(galleryList, ImageId, imageId);
      galleryFile := SaveData(galleryList);
      resp := Redirect(GalleryPage);
    }
  }

  /** A beneficiary read back after it was added carries the submitted fields,
      a collected amount of 0 and the image `NewImageUrl` picks. */
  method AddThenRead(site: Site, name: string, story: string, amountNeeded: int, formUrl: string,
                     photo: Option<string>, sanitize: string -> string, freshId: int)
    returns (record: Option<Beneficiary>)
    requires site.loggedIn && freshId !in site.table
    requires NewImageUrl(name, formUrl, photo, sanitize).Some?
    modifies site
    ensures record == Some(Beneficiary(name, story, NewImageUrl(name, formUrl, photo, sanitize).value, amountNeeded, 0))
  {
    var added := site.AddBeneficiary(name, story, amountNeeded, formUrl, photo, sanitize, freshId);
    var resp;
    resp, record := site.ShowEditForm(freshId);
  }

  /** Once a beneficiary is deleted, reading it is not-found. */
  method DeleteThenRead(site: Site, id: int) returns (resp: Response)
    requires site.loggedIn && id in site.table
    modifies site
    ensures resp == NotFound
  {
    var deleted := site.DeleteBeneficiary(id);
    var record;
    resp, record := site.ShowEditForm(id);
  }

  /** After logout, an admin action is turned away and leaves the stores alone. */
  method LogoutThenAddNews(site: Site, title: string, content: string, uuid: nat) returns (resp: Response)
    modifies site
    ensures resp == Redirect(LoginPage)
    ensures site.newsFile == old(site.newsFile)
  {
    var out := site.AdminLogout();
    resp := site.AddNews(title, content, uuid);
  }
}
