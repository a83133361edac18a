/** Helpers shared by the handlers: the password check and the handling of
    an uploaded file's name (extension, allow-list, sanitising) before the
    file is saved under ./static. */
module Endpoints {
  import opened Common
  import opened Models
  import opened Http

  /** bcrypt.CompareHashAndPassword succeeds, for the ideal digest. */
  predicate CheckPasswordHash(password: string, hash: Secret)
  {
    hash == Bcrypt(password)
  }

  /** The check accepts exactly the password that was hashed; the zero
      record of a failed lookup matches no password. */
  lemma CheckPasswordHashExact(p: string, q: string)
    ensures CheckPasswordHash(p, Hash(q)) <==> p == q
    ensures !CheckPasswordHash(p, ZeroUser.password)
  {
  }

  // ---------------------------------------------------------------------
  // Extension
  // ---------------------------------------------------------------------

  /** filepath.Ext on a '/'-separated path: the suffix from the last '.'
      that follows the last '/', or "" if there is none. */
  function FileExt(path: string): string
  {
    if |path| == 0 then ""
    else
      var c := path[|path| - 1];
      if c == '/' then ""
      else if c == '.' then "."
      else
        var e := FileExt(path[..|path| - 1]);
        if e == "" then "" else e + [c]
  }

  /** The extension is empty or a suffix of the path that starts with the
      only '.' in it and holds no '/'. */
  lemma {:induction false} FileExtSpec(path: string)
    ensures var r := FileExt(path);
      r == "" || (|r| <= |path| && r == path[|path| - |r|..] && r[0] == '.')
    ensures var r := FileExt(path);
      forall i :: 1 <= i < |r| ==> r[i] != '.' && r[i] != '/'
  {
    if |path| > 0 && path[|path| - 1] != '/' && path[|path| - 1] != '.' {
      FileExtSpec(path[..|path| - 1]);
    }
  }

  /** The extension of p + "." + e is "." + e when e holds no '.' and no '/'. */
  lemma {:induction false} FileExtOfDotted(p: string, e: string)
    requires forall i :: 0 <= i < |e| ==> e[i] != '.' && e[i] != '/'
    ensures FileExt(p + "." + e) == "." + e
  {
    if |e| > 0 {
      var e' := e[..|e| - 1];
      FileExtOfDotted(p, e');
      assert (p + "." + e)[..|p + "." + e| - 1] == p + "." + e';
      assert "." + e' + [e[|e| - 1]] == "." + e;
    } else {
      assert p + "." + e == p + ".";
    }
  }

  /** A name without any '.' has an empty extension. */
  lemma {:induction false} FileExtNoDot(s: string)
    requires forall i :: 0 <= i < |s| ==> s[i] != '.'
    ensures FileExt(s) == ""
  {
    if |s| > 0 {
      FileExtNoDot(s[..|s| - 1]);
    }
  }

  function TrimPrefix(s: string, prefix: string): (r: string)
    ensures prefix <= s ==> s == prefix + r
    ensures !(prefix <= s) ==> r == s
  {
    if prefix <= s then s[|prefix|..] else s
  }

  function LowerChar(c: char): char
  {
    if 'A' <= c <= 'Z' then (c as int + 32) as char else c
  }

  /** strings.ToLower, on ASCII letters. */
  function ToLower(s: string): string
  {
    if |s| == 0 then [] else [LowerChar(s[0])] + ToLower(s[1..])
  }

  /** Lower-casing maps each character on its own and keeps the length. */
  lemma {:induction false} ToLowerSpec(s: string)
    ensures |ToLower(s)| == |s|
    ensures forall i :: 0 <= i < |s| ==> ToLower(s)[i] == LowerChar(s[i])
  {
    if |s| > 0 {
      ToLowerSpec(s[1..]);
    }
  }

  /** The extension ProcessImageFile compares: after the last dot, without
      the dot, lower-cased. */
  function Extension(filename: string): string
  {
    ToLower(TrimPrefix(FileExt(filename), "."))
  }

  lemma ExtensionOfDotted(p: string, e: string)
    requires forall i :: 0 <= i < |e| ==> e[i] != '.' && e[i] != '/'
    ensures Extension(p + "." + e) == ToLower(e)
  {
    FileExtOfDotted(p, e);
  }

  lemma ExtensionNoDot(s: string)
    requires forall i :: 0 <= i < |s| ==> s[i] != '.'
    ensures Extension(s) == ""
  {
    FileExtNoDot(s);
  }

  const AllowedExtensions: seq<string> := ["jpg", "jpeg", "png", "webp"]

  /** The allow-list loop: valid iff ext is one of the listed extensions. */
  method IsAllowedExtension(ext: string) returns (valid: bool)
    ensures valid <==> ext in AllowedExtensions
  {
    valid := false;
    var i := 0;
    while i < |AllowedExtensions|
      invariant 0 <= i <= |AllowedExtensions|
      invariant !valid
      invariant forall k :: 0 <= k < i ==> AllowedExtensions[k] != ext
    {
      if AllowedExtensions[i] == ext {
        valid := true;
        break;
      }
      i := i + 1;
    }
  }

  // ---------------------------------------------------------------------
  // Sanitised name
  // ---------------------------------------------------------------------

  /** strings.ReplaceAll(s, " ", "_") */
  function ReplaceSpaces(s: string): (r: string)
    ensures |r| == |s|
    ensures forall i :: 0 <= i < |s| ==> r[i] == (if s[i] == ' ' then '_' else s[i])
  {
    if |s| == 0 then [] else [if s[0] == ' ' then '_' else s[0]] + ReplaceSpaces(s[1..])
  }

  /** strings.Trim(s, " "): drops the leading and the trailing spaces. */
  function TrimSpaces(s: string): (r: string)
    ensures (forall i :: 0 <= i < |s| ==> s[i] != ' ') ==> r == s
    ensures |r| <= |s|
  {
    if |s| > 0 && s[0] == ' ' then TrimSpaces(s[1..])
    else if |s| > 0 && s[|s| - 1] == ' ' then TrimSpaces(s[..|s| - 1])
    else s
  }

  /** The stored name of a file kept under its own name. */
  function Sanitize(name: string): string
  {
    TrimSpaces(ReplaceSpaces(name))
  }

  /** The sanitised name has no space, the length of the original, the
      original's other characters in place, and sanitising is idempotent. */
  lemma SanitizeSpec(name: string)
    ensures |Sanitize(name)| == |name|
    ensures forall i :: 0 <= i < |name| ==> Sanitize(name)[i] == (if name[i] == ' ' then '_' else name[i])
    ensures forall i :: 0 <= i < |name| ==> Sanitize(name)[i] != ' '
    ensures Sanitize(Sanitize(name)) == Sanitize(name)
  {
    var r := ReplaceSpaces(name);
    assert forall i :: 0 <= i < |r| ==> r[i] != ' ';
    assert Sanitize(name) == r;
    assert ReplaceSpaces(r) == r;
  }

  // ---------------------------------------------------------------------
  // ProcessImageFile
  // ---------------------------------------------------------------------

  /** An uploaded file with the outcomes of the I/O around it: the
      identifier uuid.New() yields for it and whether saving it succeeds. */
  datatype Upload = Upload(filename: string, uuid: string, saveOk: bool)

  /** What ProcessImageFile returns and the status it writes, if any. */
  datatype UploadOutcome = UploadOutcome(name: string, error: Option<int>)

  function Outcome(up: Upload, ignoreUUID: bool): (r: UploadOutcome)
    ensures r.error.None? || r.error == Some(400) || r.error == Some(500)
    ensures r.error.Some? ==> r.name == ""
  {
    var ext := Extension(up.filename);
    if !ignoreUUID && ext !in AllowedExtensions then UploadOutcome("", Some(400))
    else
      var name := if !ignoreUUID then up.uuid + "." + ext else Sanitize(up.filename);
      if !up.saveOk then UploadOutcome("", Some(500)) else UploadOutcome(name, None)
  }

  /** The extension is checked only when a fresh identifier is used (400
      when it is not allowed); a failed save is 500; otherwise the name is
      the identifier with the extension, or the sanitised original name. */
  lemma OutcomeSpec(up: Upload, ignoreUUID: bool)
    ensures var r := Outcome(up, ignoreUUID);
      (r.error == Some(400) <==> !ignoreUUID && Extension(up.filename) !in AllowedExtensions) &&
      (r.error == Some(500) <==> (ignoreUUID || Extension(up.filename) in AllowedExtensions) && !up.saveOk) &&
      (r.error.None? <==> (ignoreUUID || Extension(up.filename) in AllowedExtensions) && up.saveOk) &&
      (r.error.None? && !ignoreUUID ==> r.name == up.uuid + "." + Extension(up.filename)) &&
      (r.error.None? && ignoreUUID ==> r.name == Sanitize(up.filename))
  {
  }

  /** A name stored under a fresh identifier ends with "." and an allowed
      extension; a name stored under the original name has no spaces. */
  lemma OutcomeName(up: Upload, ignoreUUID: bool)
    requires Outcome(up, ignoreUUID).error.None?
    ensures !ignoreUUID ==> var ext := Extension(up.filename);
      ext in AllowedExtensions && |Outcome(up, ignoreUUID).name| > |ext| &&
      Outcome(up, ignoreUUID).name[|Outcome(up, ignoreUUID).name| - |ext| - 1..] == "." + ext
    ensures ignoreUUID ==> forall i :: 0 <= i < |Outcome(up, ignoreUUID).name| ==> Outcome(up, ignoreUUID).name[i] != ' '
  {
    var r := Outcome(up, ignoreUUID);
    if !ignoreUUID {
      var ext := Extension(up.filename);
      assert r.name == up.uuid + "." + ext;
      assert r.name[|r.name| - |ext| - 1..] == "." + ext;
    } else {
      assert r.name == Sanitize(up.filename);
      SanitizeSpec(up.filename);
    }
  }

  /** The response status after ProcessImageFile has written its error, if any. */
  function AfterUpload(current: Option<int>, o: UploadOutcome): (r: Option<int>)
    ensures current.Some? ==> r == current
    ensures current.None? ==> r == o.error
  {
    if o.error.Some? then Written(current, o.error.value) else current
  }

  /** ProcessImageFile(fh, ctx, ignoreUUID): the name the file is stored
      under, or "" after writing 400 (extension not allowed, checked only
      when a fresh identifier is used) or 500 (save failed). */
  method ProcessImageFile(up: Upload, ctx: Context, ignoreUUID: bool) returns (filename: string)
    modifies ctx
    ensures filename == Outcome(up, ignoreUUID).name
    ensures ctx.status == AfterUpload(old(ctx.status), Outcome(up, ignoreUUID))
    ensures ctx.aborted == old(ctx.aborted)
  {
    var ext := ToLower(TrimPrefix(FileExt(up.filename), "."));
    if !ignoreUUID {
      var valid := IsAllowedExtension(ext);
      if !valid {
        ctx.JSON(400);
        return "";
      }
    }
    if !ignoreUUID {
      filename := up.uuid + "." + ext;
    } else {
      filename := TrimSpaces(ReplaceSpaces(up.filename));
    }
    if !up.saveOk {
      ctx.JSON(500);
      return "";
    }
  }

  // ---------------------------------------------------------------------
  // Several files in one form field
  // ---------------------------------------------------------------------

  /** The name ProcessImageFile returns for one file. */
  function StoredName(ignoreUUID: bool): Upload -> string
  {
    (up: Upload) => Outcome(up, ignoreUUID).name
  }

  /** The names ProcessImageFile returns for the files, in upload order. */
  function UploadNames(files: seq<Upload>, ignoreUUID: bool): seq<string>
  {
    MapPrefix(files, |files|, StoredName(ignoreUUID))
  }

  /** One name per file, each the name that file alone is stored under. */
  lemma UploadNamesSpec(files: seq<Upload>, ignoreUUID: bool)
    ensures |UploadNames(files, ignoreUUID)| == |files|
    ensures forall k :: 0 <= k < |files| ==> UploadNames(files, ignoreUUID)[k] == Outcome(files[k], ignoreUUID).name
  {
    MapPrefixSpec(files, |files|, StoredName(ignoreUUID));
  }

  /** The response status after the first n files have been processed in
      turn: the status already written, else the first file error. */
  function StatusAfter(current: Option<int>, files: seq<Upload>, n: nat, ignoreUUID: bool): Option<int>
    requires n <= |files|
  {
    if n == 0 then current
    else AfterUpload(StatusAfter(current, files, n - 1, ignoreUUID), Outcome(files[n - 1], ignoreUUID))
  }

  function UploadsStatus(current: Option<int>, files: seq<Upload>, ignoreUUID: bool): Option<int>
  {
    StatusAfter(current, files, |files|, ignoreUUID)
  }

  /** A status already written survives every upload, and so does the
      absence of one when every file is stored. */
  lemma {:induction false} StatusAfterSpec(current: Option<int>, files: seq<Upload>, n: nat, ignoreUUID: bool)
    requires n <= |files|
    ensures current.Some? ==> StatusAfter(current, files, n, ignoreUUID) == current
    ensures (forall k :: 0 <= k < n ==> Outcome(files[k], ignoreUUID).error.None?) ==>
              StatusAfter(current, files, n, ignoreUUID) == current
  {
    if n > 0 {
      StatusAfterSpec(current, files, n - 1, ignoreUUID);
    }
  }

  /** The status after several uploads is the first error among them,
      unless a status was written before. */
  lemma UploadsStatusSpec(current: Option<int>, files: seq<Upload>, ignoreUUID: bool)
    ensures current.Some? ==> UploadsStatus(current, files, ignoreUUID) == current
    ensures (forall k :: 0 <= k < |files| ==> Outcome(files[k], ignoreUUID).error.None?) ==>
              UploadsStatus(current, files, ignoreUUID) == current
  {
    StatusAfterSpec(current, files, |files|, ignoreUUID);
  }

  /** One turn of the upload loop: the file at index i, its name appended. */
  method ProcessNext(files: seq<Upload>, i: nat, ctx: Context, ignoreUUID: bool, names: seq<string>, ghost start: Option<int>)
      returns (names': seq<string>)
    requires i < |files|
    requires names == MapPrefix(files, i, StoredName(ignoreUUID))
    requires ctx.status == StatusAfter(start, files, i, ignoreUUID)
    modifies ctx
    ensures names' == MapPrefix(files, i + 1, StoredName(ignoreUUID))
    ensures ctx.status == StatusAfter(start, files, i + 1, ignoreUUID)
    ensures ctx.aborted == old(ctx.aborted)
  {
    var filename := ProcessImageFile(files[i], ctx, ignoreUUID);
    names' := names + [filename];
  }

  /** The loop `for _, file := range files { names = append(names, ProcessImageFile(file, ctx, ignoreUUID)) }`. */
  method ProcessUploads(files: seq<Upload>, ctx: Context, ignoreUUID: bool) returns (names: seq<string>)
    modifies ctx
    ensures names == UploadNames(files, ignoreUUID)
    ensures ctx.status == UploadsStatus(old(ctx.status), files, ignoreUUID)
    ensures ctx.aborted == old(ctx.aborted)
  {
    ghost var start := ctx.status;
    names := [];
    var i := 0;
    while i < |files|
      invariant 0 <= i <= |files|
      invariant names == MapPrefix(files, i, StoredName(ignoreUUID))
      invariant ctx.status == StatusAfter(start, files, i, ignoreUUID)
      invariant ctx.aborted == old(ctx.aborted)
    {
      names := ProcessNext(files, i, ctx, ignoreUUID, names, start);
      i := i + 1;
    }
  }
}
