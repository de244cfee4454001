/** The image upload and the profile-visibility update. Files are stored
    under a fresh UUID followed by their lower-cased extension; the image
    table, the file system and the UUID source are supplied by the caller.
    The files of the multipart form are taken in the order given (Go walks
    the form's map in an unspecified order). */
module ImageHandlers {
  import opened Wrappers
  import opened GoStd
  import opened Schema
  import opened Http
  import LS = ListingService
  import LH = ListingHandlers

  /** The extensions an upload may carry, lower case. */
  predicate AllowedExt(ext: string) {
    ext == ".jpg" || ext == ".jpeg" || ext == ".png" || ext == ".gif" || ext == ".bmp"
  }

  /** The extension a file is checked and stored with. */
  function StoredExt(filename: string): string {
    ToLower(Ext(filename))
  }

  /** The check ignores case: upper-casing a file name changes neither the
      extension it is stored with nor whether it is accepted. */
  lemma AcceptanceIgnoresCase(filename: string)
    ensures StoredExt(ToUpperAscii(filename)) == StoredExt(filename)
    ensures AllowedExt(StoredExt(ToUpperAscii(filename))) <==> AllowedExt(StoredExt(filename))
  {
    ExtOfUpper(filename);
    ToLowerIgnoresUpperCasing(Ext(filename));
  }

  /** One part of the multipart form: its client file name, and the error
      opening it gives, if any. */
  datatype FilePart = FilePart(filename: string, openError: Option<string>)

  /** The effects outside the database: the UUID drawn for the i-th file,
      `SaveFile` (the stored path, or an error) and `AddImage`. */
  datatype Storage = Storage(
    uuid: nat -> string,
    save: string -> Result<string, string>,
    addImage: (string, int, int) -> Option<string>)

  const AllUploaded := "All image files uploaded successfully and stored in ServerImages"

  /** The listing check made for every file: the listing id to record, or
      the error to answer with. Listing 0 means "no listing" and is not
      checked. */
  function ListingGate(listingParam: string, u: int, db: Db): (r: Result<int, Event>)
    ensures r.Success? <==>
      Atoi(listingParam).Some? && (Atoi(listingParam).value == 0 || LH.OwnedBy(db, Atoi(listingParam).value, u))
    ensures r.Success? ==> r.value == Atoi(listingParam).value
    ensures r.Failure? ==> r.error.HttpError?
    ensures r.Failure? && r.error.code == 401 <==>
      && Atoi(listingParam).Some? && Atoi(listingParam).value != 0
      && LS.GetByID(db, Atoi(listingParam).value).Success? && LS.GetByID(db, Atoi(listingParam).value).value.userId != u
  {
    match Atoi(listingParam)
    case None => Failure(HttpError(400, "Invalid listing ID"))
    case Some(lid) =>
      if lid == 0 then Success(0)
      else
        match LS.GetByID(db, lid)
        case Failure(_) => Failure(HttpError(400, "Invalid listing ID"))
        case Success(l) =>
          if l.userId != u then Failure(HttpError(401, "Cannot upload image for another user's listing"))
          else Success(lid)
  }

  /** File `i` passes every step: its extension, opening it, the listing
      check, saving it and recording it. */
  predicate Completes(files: seq<FilePart>, i: nat, u: int, listingParam: string, db: Db, st: Storage)
    requires i < |files|
  {
    && AllowedExt(StoredExt(files[i].filename))
    && files[i].openError.None?
    && ListingGate(listingParam, u, db).Success?
    && var name := StoredName(files, i, st);
    && st.save(name).Success?
    && st.addImage(name, u, ListingGate(listingParam, u, db).value).None?
  }

  /** The name file `i` is stored under. */
  function StoredName(files: seq<FilePart>, i: nat, st: Storage): string
    requires i < |files|
  {
    st.uuid(i) + StoredExt(files[i].filename)
  }

  /** What one turn of the loop does with its file: it goes through, with
      the save, the record and the line of text it writes, or it fails
      with the events it leaves, the last of which is its error. */
  datatype FileResult =
    | Done(save: Op, add: Op, line: Event)
    | Failed(events: seq<Event>)

  /** The turn for file `i`. */
  function Process(files: seq<FilePart>, i: nat, u: int, listingParam: string, db: Db, st: Storage): (r: FileResult)
    requires i < |files|
    ensures r.Done? <==> Completes(files, i, u, listingParam, db, st)
    ensures r.Done? ==>
      && r.save == FileSave(i, StoredName(files, i, st))
      && r.add == ImageAdd(StoredName(files, i, st), u, ListingGate(listingParam, u, db).value)
      && r.line.Write?
    ensures r.Failed? ==> EffectiveStatus(r.events) != 200
    ensures r.Failed? ==> forall op :: Called(r.events, op) ==>
      && AllowedExt(StoredExt(files[i].filename)) && ListingGate(listingParam, u, db).Success?
      && (op == FileSave(i, StoredName(files, i, st))
          || op == ImageAdd(StoredName(files, i, st), u, ListingGate(listingParam, u, db).value))
  {
    var f := files[i];
    var ext := StoredExt(f.filename);
    if !AllowedExt(ext) then Failed([HttpError(400, "Invalid file type: " + f.filename)])
    else if f.openError.Some? then Failed([HttpError(500, "Failed to open file: " + f.openError.value)])
    else
      match ListingGate(listingParam, u, db)
      case Failure(err) => Failed([err])
      case Success(lid) =>
        var name := StoredName(files, i, st);
        match st.save(name)
        case Failure(err) => Failed(Invoke(FileSave(i, name), [HttpError(500, "Failed to save file: " + err)]))
        case Success(path) =>
          match st.addImage(name, u, lid)
          case Some(err) =>
            Failed(Invoke(FileSave(i, name), Invoke(ImageAdd(name, u, lid), [HttpError(500, "Failed to insert image record: " + err)])))
          case None =>
            Done(FileSave(i, name), ImageAdd(name, u, lid),
                 Write(Text("File " + f.filename + " uploaded successfully as " + path + "\n")))
  }

  /** The turns of all files. */
  function Results(files: seq<FilePart>, u: int, listingParam: string, db: Db, st: Storage): (rs: seq<FileResult>)
    ensures |rs| == |files|
    ensures forall i :: 0 <= i < |files| ==> rs[i] == Process(files, i, u, listingParam, db, st)
  {
    seq(|files|, i requires 0 <= i < |files| => Process(files, i, u, listingParam, db, st))
  }

  /** Turns that fail commit an error status; turns that go through write
      text. */
  predicate WellFormed(rs: seq<FileResult>) {
    forall k :: 0 <= k < |rs| ==>
      (rs[k].Failed? ==> EffectiveStatus(rs[k].events) != 200) && (rs[k].Done? ==> rs[k].line.Write?)
  }

  /** The loop: turns run in order until one fails; after the last the
      summary is written with status 200. */
  function Loop(rs: seq<FileResult>): seq<Event> {
    if |rs| == 0 then [WriteHeader(200), Write(Text(AllUploaded))]
    else
      match rs[0]
      case Failed(events) => events
      case Done(save, add, line) => [Call(save), Call(add), line] + Loop(rs[1..])
  }

  /** Only the first turn decides the status: 200 exactly when it goes
      through (or there is none). */
  lemma {:induction false} LoopStatus(rs: seq<FileResult>)
    requires WellFormed(rs)
    ensures EffectiveStatus(Loop(rs)) == 200 <==> |rs| == 0 || rs[0].Done?
  {
    if |rs| > 0 && rs[0].Done? {
      var rest := Loop(rs[1..]);
      assert Loop(rs) == [Call(rs[0].save), Call(rs[0].add)] + ([rs[0].line] + rest);
      CallsDoNotCommit([Call(rs[0].save), Call(rs[0].add)], [rs[0].line] + rest);
    }
  }

  /** Every operation the loop invokes belongs to a turn that ran: one
      whose predecessors all went through. */
  lemma {:induction false} LoopCalls(rs: seq<FileResult>, op: Op)
    requires WellFormed(rs)
    requires Called(Loop(rs), op)
    ensures exists k :: 0 <= k < |rs| && (forall j :: 0 <= j < k ==> rs[j].Done?) && Ran(rs[k], op)
  {
    if rs[0].Failed? {
      assert Ran(rs[0], op);
    } else if op == rs[0].save || op == rs[0].add {
      assert Ran(rs[0], op);
    } else {
      assert Loop(rs) == [Call(rs[0].save), Call(rs[0].add), rs[0].line] + Loop(rs[1..]);
      assert Called(Loop(rs[1..]), op);
      LoopCalls(rs[1..], op);
      var k :| 0 <= k < |rs[1..]| && (forall j :: 0 <= j < k ==> rs[1..][j].Done?) && Ran(rs[1..][k], op);
      assert Ran(rs[k + 1], op);
    }
  }

  /** The operation is one the turn invokes. */
  predicate Ran(r: FileResult, op: Op) {
    if r.Done? then op == r.save || op == r.add else Called(r.events, op)
  }

  /** When every turn goes through, each turn's save is invoked. */
  lemma {:induction false} LoopAllSaved(rs: seq<FileResult>)
    requires forall k :: 0 <= k < |rs| ==> rs[k].Done?
    ensures forall k :: 0 <= k < |rs| ==> Called(Loop(rs), rs[k].save)
  {
    if |rs| > 0 {
      LoopAllSaved(rs[1..]);
      var rest := Loop(rs[1..]);
      forall k | 0 <= k < |rs| ensures Called(Loop(rs), rs[k].save) {
        if k > 0 {
          assert rs[k] == rs[1..][k - 1];
          assert Call(rs[k].save) in rest;
        }
      }
    }
  }

  /** When every turn goes through, the log ends with the summary. */
  lemma {:induction false} LoopAllEnds(rs: seq<FileResult>)
    requires forall k :: 0 <= k < |rs| ==> rs[k].Done?
    ensures var e := Loop(rs); |e| >= 2 && e[|e| - 2] == WriteHeader(200) && e[|e| - 1] == Write(Text(AllUploaded))
  {
    if |rs| > 0 {
      LoopAllEnds(rs[1..]);
      var rest := Loop(rs[1..]);
      var e := Loop(rs);
      assert e[3..] == rest;
      assert e[|e| - 2] == rest[|rest| - 2];
      assert e[|e| - 1] == rest[|rest| - 1];
    }
  }

  /** When the loop reaches a turn that fails, every earlier turn's save
      and record were invoked, and the log ends with the failed turn's
      events. */
  lemma {:induction false} LoopStopsAt(rs: seq<FileResult>, k: nat)
    requires k < |rs| && rs[k].Failed?
    requires forall j :: 0 <= j < k ==> rs[j].Done?
    ensures forall j :: 0 <= j < k ==> Called(Loop(rs), rs[j].save) && Called(Loop(rs), rs[j].add)
    ensures |Loop(rs)| >= |rs[k].events| && Loop(rs)[|Loop(rs)| - |rs[k].events|..] == rs[k].events
  {
    if k > 0 {
      assert rs[1..][k - 1] == rs[k];
      LoopStopsAt(rs[1..], k - 1);
      var rest := Loop(rs[1..]);
      var e := Loop(rs);
      assert e == [Call(rs[0].save), Call(rs[0].add), rs[0].line] + rest;
      forall j | 0 <= j < k ensures Called(e, rs[j].save) && Called(e, rs[j].add) {
        if j > 0 {
          assert rs[j] == rs[1..][j - 1];
          assert Call(rs[j].save) in rest && Call(rs[j].add) in rest;
        }
      }
      assert e[|e| - |rs[k].events|..] == rest[|rest| - |rs[k].events|..];
    }
  }

  /** `createImage`: the token is required, the form must parse, then the
      files are processed in order. */
  function CreateImage(token: Option<int>, form: Result<seq<FilePart>, string>, listingParam: string, db: Db, st: Storage)
    : (e: seq<Event>)
    ensures token.None? ==> e == [HttpError(401, "User ID not found in token")]
    ensures token.Some? && form.Failure? ==> e == [HttpError(400, "Failed to parse multipart form: " + form.error)]
    ensures token.Some? && form.Success? && |form.value| > 0 && !AllowedExt(StoredExt(form.value[0].filename)) ==>
      e == [HttpError(400, "Invalid file type: " + form.value[0].filename)]
    ensures EffectiveStatus(e) == 200 <==>
      token.Some? && form.Success? && (|form.value| == 0 || Completes(form.value, 0, token.value, listingParam, db, st))
  {
    if token.None? then [HttpError(401, "User ID not found in token")]
    else
      match form
      case Failure(err) => [HttpError(400, "Failed to parse multipart form: " + err)]
      case Success(files) =>
        var rs := Results(files, token.value, listingParam, db, st);
        assert WellFormed(rs);
        LoopStatus(rs);
        Loop(rs)
  }

  /** Only files that passed the extension check, with every file before
      them, are saved, each under its UUID name and lower-cased extension,
      and only once the listing check has passed; images are recorded for
      the token's user and the checked listing only. */
  lemma {:induction false} UploadSavesOnlyChecked(u: int, files: seq<FilePart>, listingParam: string, db: Db, st: Storage)
    ensures var e := CreateImage(Some(u), Success(files), listingParam, db, st);
      && (forall k: nat, name :: Called(e, FileSave(k, name)) ==>
            && k < |files| && name == st.uuid(k) + StoredExt(files[k].filename)
            && (forall j :: 0 <= j <= k ==> AllowedExt(StoredExt(files[j].filename)))
            && ListingGate(listingParam, u, db).Success?)
      && (forall name, user, lid :: Called(e, ImageAdd(name, user, lid)) ==>
            user == u && ListingGate(listingParam, u, db) == Success(lid))
  {
    var rs := Results(files, u, listingParam, db, st);
    var e := Loop(rs);
    assert e == CreateImage(Some(u), Success(files), listingParam, db, st);
    assert WellFormed(rs);
    forall k: nat, name | Called(e, FileSave(k, name))
      ensures && k < |files| && name == st.uuid(k) + StoredExt(files[k].filename)
              && (forall j :: 0 <= j <= k ==> AllowedExt(StoredExt(files[j].filename)))
              && ListingGate(listingParam, u, db).Success?
    {
      var t := RanTurn(files, u, listingParam, db, st, FileSave(k, name));
      assert t == k;
    }
    forall name, user, lid | Called(e, ImageAdd(name, user, lid))
      ensures user == u && ListingGate(listingParam, u, db) == Success(lid)
    {
      var t := RanTurn(files, u, listingParam, db, st, ImageAdd(name, user, lid));
    }
  }

  /** The turn an invoked operation belongs to: every file up to it passed
      the extension check, the listing check passed, and the operation is
      that turn's save or record. */
  lemma {:induction false} RanTurn(files: seq<FilePart>, u: int, listingParam: string, db: Db, st: Storage, op: Op)
    returns (t: nat)
    requires Called(Loop(Results(files, u, listingParam, db, st)), op)
    ensures t < |files|
    ensures forall j :: 0 <= j <= t ==> AllowedExt(StoredExt(files[j].filename))
    ensures ListingGate(listingParam, u, db).Success?
    ensures op == FileSave(t, StoredName(files, t, st))
         || op == ImageAdd(StoredName(files, t, st), u, ListingGate(listingParam, u, db).value)
  {
    var rs := Results(files, u, listingParam, db, st);
    ResultsWellFormed(files, u, listingParam, db, st);
    LoopCalls(rs, op);
    var k :| 0 <= k < |rs| && (forall j :: 0 <= j < k ==> rs[j].Done?) && Ran(rs[k], op);
    TurnRan(files, k, u, listingParam, db, st, op);
    DonePassedCheck(files, k, u, listingParam, db, st);
    t := k;
  }

  lemma {:induction false} ResultsWellFormed(files: seq<FilePart>, u: int, listingParam: string, db: Db, st: Storage)
    ensures WellFormed(Results(files, u, listingParam, db, st))
  {
  }

  /** An operation a turn ran is that turn's checked save or record. */
  lemma {:induction false} TurnRan(files: seq<FilePart>, k: nat, u: int, listingParam: string, db: Db, st: Storage, op: Op)
    requires k < |files| && Ran(Process(files, k, u, listingParam, db, st), op)
    ensures AllowedExt(StoredExt(files[k].filename)) && ListingGate(listingParam, u, db).Success?
    ensures op == FileSave(k, StoredName(files, k, st))
         || op == ImageAdd(StoredName(files, k, st), u, ListingGate(listingParam, u, db).value)
  {
    var r := Process(files, k, u, listingParam, db, st);
    if r.Failed? {
      assert Called(r.events, op);
    }
  }

  /** Files whose turns went through, and the one after them, passed the
      extension check. */
  lemma {:induction false} DonePassedCheck(files: seq<FilePart>, k: nat, u: int, listingParam: string, db: Db, st: Storage)
    requires k < |files| && AllowedExt(StoredExt(files[k].filename))
    requires forall j :: 0 <= j < k ==> Results(files, u, listingParam, db, st)[j].Done?
    ensures forall j :: 0 <= j <= k ==> AllowedExt(StoredExt(files[j].filename))
  {
    forall j | 0 <= j <= k ensures AllowedExt(StoredExt(files[j].filename)) {
      if j < k {
        assert Results(files, u, listingParam, db, st)[j] == Process(files, j, u, listingParam, db, st);
      }
    }
  }

  /** Uploading for a listing of another user saves no file, and the
      client sees 401 once the first file has a valid type and opens. */
  lemma {:induction false} ForeignListingSavesNothing(u: int, files: seq<FilePart>, listingParam: string, db: Db, st: Storage)
    requires Atoi(listingParam).Some? && Atoi(listingParam).value != 0
    requires LS.GetByID(db, Atoi(listingParam).value).Success?
    requires LS.GetByID(db, Atoi(listingParam).value).value.userId != u
    ensures forall k, name :: !Called(CreateImage(Some(u), Success(files), listingParam, db, st), FileSave(k, name))
    ensures |files| > 0 && AllowedExt(StoredExt(files[0].filename)) && files[0].openError.None? ==>
      EffectiveStatus(CreateImage(Some(u), Success(files), listingParam, db, st)) == 401
  {
    UploadSavesOnlyChecked(u, files, listingParam, db, st);
    if |files| > 0 && AllowedExt(StoredExt(files[0].filename)) && files[0].openError.None? {
      assert Process(files, 0, u, listingParam, db, st) == Failed([ListingGate(listingParam, u, db).error]);
    }
  }

  /** When every file goes through, every file is saved under its UUID
      and lower-cased extension, and the response ends with the summary. */
  lemma {:induction false} AllFilesSaved(u: int, files: seq<FilePart>, listingParam: string, db: Db, st: Storage)
    requires forall k :: 0 <= k < |files| ==> Completes(files, k, u, listingParam, db, st)
    ensures var e := CreateImage(Some(u), Success(files), listingParam, db, st);
      && (forall k :: 0 <= k < |files| ==> Called(e, FileSave(k, StoredName(files, k, st))))
      && |e| >= 2 && e[|e| - 2] == WriteHeader(200) && e[|e| - 1] == Write(Text(AllUploaded))
  {
    var rs := Results(files, u, listingParam, db, st);
    assert Loop(rs) == CreateImage(Some(u), Success(files), listingParam, db, st);
    forall k | 0 <= k < |rs| ensures rs[k].Done? && rs[k].save == FileSave(k, StoredName(files, k, st)) {
      assert rs[k] == Process(files, k, u, listingParam, db, st);
    }
    LoopAllSaved(rs);
    LoopAllEnds(rs);
  }

  /** The loop stops at the first file that does not go through: every
      file before it has been saved and recorded (and stays so), the status
      is 200 exactly when some file went through first, no later file is
      saved, and a disallowed type ends the response with its 400 text. */
  lemma {:induction false} UploadedBeforeRejection(u: int, files: seq<FilePart>, k: nat, listingParam: string, db: Db, st: Storage)
    requires k < |files|
    requires forall j :: 0 <= j < k ==> Completes(files, j, u, listingParam, db, st)
    requires !Completes(files, k, u, listingParam, db, st)
    ensures var e := CreateImage(Some(u), Success(files), listingParam, db, st);
      && (forall j :: 0 <= j < k ==>
            && Called(e, FileSave(j, StoredName(files, j, st)))
            && Called(e, ImageAdd(StoredName(files, j, st), u, ListingGate(listingParam, u, db).value)))
      && (EffectiveStatus(e) == 200 <==> k > 0)
      && (forall j: nat, name :: Called(e, FileSave(j, name)) ==> j <= k)
      && (!AllowedExt(StoredExt(files[k].filename)) ==>
            |e| > 0 && e[|e| - 1] == HttpError(400, "Invalid file type: " + files[k].filename))
  {
    var rs := Results(files, u, listingParam, db, st);
    var e := Loop(rs);
    assert e == CreateImage(Some(u), Success(files), listingParam, db, st);
    ResultsWellFormed(files, u, listingParam, db, st);
    assert rs[k] == Process(files, k, u, listingParam, db, st);
    forall j | 0 <= j < k
      ensures rs[j] == Done(FileSave(j, StoredName(files, j, st)),
                            ImageAdd(StoredName(files, j, st), u, ListingGate(listingParam, u, db).value), rs[j].line)
    {
      assert rs[j] == Process(files, j, u, listingParam, db, st);
    }
    LoopStopsAt(rs, k);
    forall j: nat, name | Called(e, FileSave(j, name)) ensures j <= k {
      LaterNotSaved(files, k, u, listingParam, db, st, j, name);
    }
  }

  /** A save belongs to a turn no later than the first that fails. */
  lemma {:induction false} LaterNotSaved(files: seq<FilePart>, k: nat, u: int, listingParam: string, db: Db, st: Storage,
                                         j: nat, name: string)
    requires k < |files| && !Completes(files, k, u, listingParam, db, st)
    requires Called(Loop(Results(files, u, listingParam, db, st)), FileSave(j, name))
    ensures j <= k
  {
    var rs := Results(files, u, listingParam, db, st);
    ResultsWellFormed(files, u, listingParam, db, st);
    LoopCalls(rs, FileSave(j, name));
    var t :| 0 <= t < |rs| && (forall i :: 0 <= i < t ==> rs[i].Done?) && Ran(rs[t], FileSave(j, name));
    assert rs[k] == Process(files, k, u, listingParam, db, st);
    assert !rs[k].Done?;
    assert t <= k;
    TurnRan(files, t, u, listingParam, db, st, FileSave(j, name));
  }

  /** A file rejected after another went through cannot change the status:
      the client gets 200 with the 400 text appended to the body. */
  lemma {:induction false} RejectedAfterUploadStill200(good: FilePart, bad: FilePart, u: int, listingParam: string, db: Db, st: Storage)
    requires Completes([good, bad], 0, u, listingParam, db, st)
    requires !AllowedExt(StoredExt(bad.filename))
    ensures var e := CreateImage(Some(u), Success([good, bad]), listingParam, db, st);
      && EffectiveStatus(e) == 200
      && HttpError(400, "Invalid file type: " + bad.filename) in e
      && Called(e, FileSave(0, st.uuid(0) + StoredExt(good.filename)))
  {
    var files := [good, bad];
    var rs := Results(files, u, listingParam, db, st);
    assert rs[1] == Failed([HttpError(400, "Invalid file type: " + bad.filename)]);
    assert rs[1..] == [rs[1]];
    var e := Loop(rs);
    assert e == [Call(rs[0].save), Call(rs[0].add), rs[0].line] + Loop(rs[1..]);
  }

  /** With no files the listing id is never parsed: any `listing_id` gets
      the summary and 200. */
  lemma {:induction false} NoFilesSkipsListingCheck(u: int, listingParam: string, db: Db, st: Storage)
    ensures CreateImage(Some(u), Success([]), listingParam, db, st) == [WriteHeader(200), Write(Text(AllUploaded))]
  {
  }

  // ---------------------------------------------------------------------
  // UpdateImage

  /** The `show_on_profile` path value: `Atoi` must give 0 or 1, and 1
      means shown. */
  function ParseShowOnProfile(s: string): (r: Option<bool>)
    ensures r.Some? <==> Atoi(s) == Some(0) || Atoi(s) == Some(1)
    ensures r == Some(true) <==> Atoi(s) == Some(1)
  {
    match Atoi(s)
    case Some(n) => if n == 1 then Some(true) else if n == 0 then Some(false) else None
    case None => None
  }

  /** What the visibility flag accepts: the two digits, and also the forms
      `Atoi` takes for them with a sign or leading zeros; words are refused. */
  lemma ShowOnProfileForms()
    ensures ParseShowOnProfile("1") == Some(true) && ParseShowOnProfile("0") == Some(false)
    ensures ParseShowOnProfile("01") == Some(true) && ParseShowOnProfile("+1") == Some(true)
    ensures ParseShowOnProfile("-0") == Some(false)
    ensures ParseShowOnProfile("2") == None && ParseShowOnProfile("") == None
    ensures ParseShowOnProfile("true") == None
  {
    AtoiAcceptsNonCanonicalForms();
    assert !IsDigit("true"[0]);
  }

  /** `UpdateImage`: the image id must parse, the flag must be 0 or 1,
      then the image service is called with the flag as a boolean. */
  function UpdateImage(imageParam: string, showParam: string, update: (int, bool) -> Option<string>): (e: seq<Event>)
    ensures Atoi(imageParam).None? ==> e == [HttpError(400, "Invalid image ID")]
    ensures Atoi(imageParam).Some? && ParseShowOnProfile(showParam).None? ==>
      e == [HttpError(400, "Invalid value for show_on_profile (use 1 for true, 0 for false)")]
    ensures forall id, show :: Called(e, ImageShow(id, show)) <==>
      Atoi(imageParam) == Some(id) && ParseShowOnProfile(showParam) == Some(show)
    ensures EffectiveStatus(e) == 200 <==>
      && Atoi(imageParam).Some? && ParseShowOnProfile(showParam).Some?
      && update(Atoi(imageParam).value, ParseShowOnProfile(showParam).value).None?
  {
    match Atoi(imageParam)
    case None => [HttpError(400, "Invalid image ID")]
    case Some(id) =>
      match ParseShowOnProfile(showParam)
      case None => [HttpError(400, "Invalid value for show_on_profile (use 1 for true, 0 for false)")]
      case Some(show) =>
        var answer :=
          match update(id, show)
          case Some(err) => [HttpError(500, "Could not update image: " + err)]
          case None => [WriteHeader(200), Write(Text("Image updated successfully"))];
        Invoke(ImageShow(id, show), answer)
  }
}
