/**
 * The checks of the route that serves a quiz file (`GET /api/quiz-file?file=<name>`): the
 * requested name must be present, must carry a spreadsheet extension and must not leave the
 * public folder; then the file is served under the NFC-normalized name when that exists,
 * and otherwise under the first directory entry that matches it without regard to case.
 *
 * Unicode normalization (`normalize('NFC')`) and `toLowerCase` are library calls and are
 * parameters here, as are the file system's answers: whether the normalized name exists and
 * the directory listing in its own order.
 */
module QuizFileRoute {
  import opened Wrappers
  import opened JsText

  /** The refusals of the route, each an error body with a status code. */
  datatype RouteError = FileNameRequired | InvalidFileType | InvalidFileName | FileNotFound

  function Status(e: RouteError): int {
    if e == FileNotFound then 404 else 400
  }

  function ErrorMessage(e: RouteError): string {
    match e
    case FileNameRequired => "File name is required"
    case InvalidFileType => "Invalid file type"
    case InvalidFileName => "Invalid file name"
    case FileNotFound => "File not found"
  }

  /** The name tries to leave the public folder: a parent reference or a path separator. */
  predicate HasTraversal(fileName: string) {
    Includes(fileName, "..") || Includes(fileName, "/") || Includes(fileName, "\\")
  }

  /** The three guards on the `file` parameter, in order; a missing or empty parameter is the
      first refusal, a name of another type the second, a traversal the third. */
  function ValidateFileName(file: Option<string>): (r: Result<string, RouteError>)
    ensures r == Failure(FileNameRequired) <==> file.None? || file.value == []
    ensures r == Failure(InvalidFileType) <==>
              file.Some? && file.value != [] && !EndsWith(file.value, ".xlsx") && !EndsWith(file.value, ".xls")
    ensures r == Failure(InvalidFileName) <==>
              && file.Some? && file.value != [] && (EndsWith(file.value, ".xlsx") || EndsWith(file.value, ".xls"))
              && HasTraversal(file.value)
    ensures r.Success? ==> file == Some(r.value)
    ensures r.Failure? ==> Status(r.error) == 400
  {
    if file.None? || file.value == [] then Failure(FileNameRequired)
    else
      var fileName := file.value;
      if !EndsWith(fileName, ".xlsx") && !EndsWith(fileName, ".xls") then Failure(InvalidFileType)
      else if HasTraversal(fileName) then Failure(InvalidFileName)
      else Success(fileName)
  }

  /** `sub` occurs nowhere in `s`, position by position. */
  lemma AbsentEverywhere(s: string, sub: string)
    requires !Includes(s, sub)
    ensures forall j :: 0 <= j <= |s| ==> !OccursAt(s, sub, j)
  {
  }

  /** No separator character and no two consecutive dots. */
  predicate StaysInFolder(name: string) {
    && (forall k :: 0 <= k < |name| ==> name[k] != '/' && name[k] != '\\')
    && (forall k :: 0 <= k < |name| - 1 ==> !(name[k] == '.' && name[k + 1] == '.'))
  }

  /** The traversal guard, stated on characters: a name has no traversal exactly when it has
      no separator character and no two consecutive dots. */
  lemma {:induction false} TraversalIsCharacters(name: string)
    ensures !HasTraversal(name) <==> StaysInFolder(name)
  {
    if !HasTraversal(name) {
      AbsentEverywhere(name, "/");
      AbsentEverywhere(name, "\\");
      AbsentEverywhere(name, "..");
      forall k | 0 <= k < |name|
        ensures name[k] != '/' && name[k] != '\\'
      {
        assert !OccursAt(name, "/", k) && !OccursAt(name, "\\", k);
        assert name[k..k + 1] == [name[k]];
      }
      forall k | 0 <= k < |name| - 1
        ensures !(name[k] == '.' && name[k + 1] == '.')
      {
        assert !OccursAt(name, "..", k);
        assert name[k..k + 2] == [name[k], name[k + 1]];
      }
    }
    if StaysInFolder(name) {
      forall j | 0 <= j <= |name|
        ensures !OccursAt(name, "/", j) && !OccursAt(name, "\\", j) && !OccursAt(name, "..", j)
      {
        if j < |name| { assert name[j..j + 1] == [name[j]]; }
        if j < |name| - 1 { assert name[j..j + 2] == [name[j], name[j + 1]]; }
      }
    }
  }

  /** A name passes the guards exactly when it is non-empty, ends in ".xlsx" or ".xls", and
      stays in the public folder. */
  lemma AcceptedNameIff(name: string)
    ensures ValidateFileName(Some(name)).Success? <==>
              name != [] && (EndsWith(name, ".xlsx") || EndsWith(name, ".xls")) && StaysInFolder(name)
  {
    TraversalIsCharacters(name);
  }

  /** The test of the `files.find` callback for one directory entry. An entry spelled exactly
      as the request always matches, whatever the two library calls do. */
  function EntryMatches(entry: string, fileName: string,
                        normalize: string -> string, lower: string -> string): (m: bool)
    ensures entry == fileName ==> m
  {
    lower(normalize(entry)) == lower(normalize(fileName)) || lower(entry) == lower(fileName)
  }

  /** `files.find(...)` as a position: the first entry that matches, `None` when none does. */
  function FindMatchingIndex(files: seq<string>, fileName: string,
                             normalize: string -> string, lower: string -> string): (r: Option<nat>)
    ensures r.Some? ==> r.value < |files| && EntryMatches(files[r.value], fileName, normalize, lower)
    ensures r.Some? ==> forall j :: 0 <= j < r.value ==> !EntryMatches(files[j], fileName, normalize, lower)
    ensures r.None? <==> forall j :: 0 <= j < |files| ==> !EntryMatches(files[j], fileName, normalize, lower)
  {
    if files == [] then None
    else if EntryMatches(files[0], fileName, normalize, lower) then Some(0)
    else
      match FindMatchingIndex(files[1..], fileName, normalize, lower)
      case None =>
        assert forall j :: 1 <= j < |files| ==> files[j] == files[1..][j - 1];
        None
      case Some(k) =>
        assert forall j :: 1 <= j <= k ==> files[j] == files[1..][j - 1];
        Some(k + 1)
  }

  /** The first match does not depend on the entries listed after it. */
  lemma {:induction false} FirstMatchIgnoresLaterEntries(files: seq<string>, later: seq<string>, fileName: string,
                                                         normalize: string -> string, lower: string -> string)
    requires FindMatchingIndex(files, fileName, normalize, lower).Some?
    ensures FindMatchingIndex(files + later, fileName, normalize, lower)
            == FindMatchingIndex(files, fileName, normalize, lower)
  {
    var k := FindMatchingIndex(files, fileName, normalize, lower).value;
    var r := FindMatchingIndex(files + later, fileName, normalize, lower);
    assert (files + later)[k] == files[k];
    assert r.Some?;
  }

  /** What the route serves, as a name inside the public folder, or why it refuses. When the
      NFC form of the name exists it is served; otherwise the first matching directory entry;
      otherwise 404. */
  function ResolveFile(file: Option<string>, normalizedExists: bool, files: seq<string>,
                       normalize: string -> string, lower: string -> string): (r: Result<string, RouteError>)
    ensures ValidateFileName(file).Failure? ==> r == ValidateFileName(file)
    ensures ValidateFileName(file).Success? && normalizedExists ==> r == Success(normalize(file.value))
    ensures ValidateFileName(file).Success? && !normalizedExists ==>
              (r == Failure(FileNotFound) <==>
                 forall j :: 0 <= j < |files| ==> !EntryMatches(files[j], file.value, normalize, lower))
    ensures ValidateFileName(file).Success? && !normalizedExists && r.Success? ==>
              exists k :: 0 <= k < |files| && files[k] == r.value
                          && EntryMatches(files[k], file.value, normalize, lower)
                          && forall j :: 0 <= j < k ==> !EntryMatches(files[j], file.value, normalize, lower)
  {
    match ValidateFileName(file)
    case Failure(e) => Failure(e)
    case Success(fileName) =>
      if normalizedExists then Success(normalize(fileName))
      else
        match FindMatchingIndex(files, fileName, normalize, lower)
        case None => Failure(FileNotFound)
        case Some(k) => Success(files[k])
  }

  /** The guards in order on concrete requests. */
  lemma GuardExamples()
    ensures ValidateFileName(None) == Failure(FileNameRequired)
    ensures ValidateFileName(Some("")) == Failure(FileNameRequired)
    ensures ValidateFileName(Some("notes.txt")) == Failure(InvalidFileType)
    ensures ValidateFileName(Some("../a.xls")) == Failure(InvalidFileName)
  {
    var txt := "notes.txt";
    assert txt[|txt| - 5..] != ".xlsx" && txt[|txt| - 4..] != ".xls";
    var up := "../a.xls";
    assert EndsWith(up, ".xls");
    assert OccursAt(up, "..", 0);
  }

  /** A request for "QUIZ.xlsx" that is not found as such is served from the entry
      "Quiz.xlsx", which matches it without regard to case. */
  lemma FallbackExample(normalize: string -> string, lower: string -> string)
    requires normalize("QUIZ.xlsx") == "QUIZ.xlsx" && normalize("Quiz.xlsx") == "Quiz.xlsx"
    requires lower("QUIZ.xlsx") == "quiz.xlsx" && lower("Quiz.xlsx") == "quiz.xlsx"
    ensures ResolveFile(Some("QUIZ.xlsx"), false, ["Quiz.xlsx"], normalize, lower) == Success("Quiz.xlsx")
  {
    var q := "QUIZ.xlsx";
    assert EndsWith(q, ".xlsx");
    assert StaysInFolder(q);
    AcceptedNameIff(q);
    assert ValidateFileName(Some(q)) == Success(q);
    assert EntryMatches("Quiz.xlsx", q, normalize, lower);
    assert FindMatchingIndex(["Quiz.xlsx"], q, normalize, lower) == Some(0);
  }
}
