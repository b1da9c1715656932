/** The export orchestrator of src/index.ts: check the options, fetch
    every page, turn the items into CSV, and optionally write the text
    to a file. The fetch replies, the serialiser and the file system are
    parameters. */
module Export {
  import opened Results
  import opened Json
  import opened Auth
  import opened Fetch
  import opened Csv

  datatype ExportOptions = ExportOptions(
    endpoint: string,
    postType: string,
    fields: seq<string>,
    auth: Option<AuthConfig>,
    perPage: Option<int>,
    outputFile: Option<string>)

  /** `fs.writeFile(path, text, "utf-8")`: None when it succeeds, the
      thrown value when it fails. */
  type Writer = (string, string) -> Option<Thrown>

  datatype FileWrite = FileWrite(path: string, text: string)

  /** The call's result: the CSV text, an exception, or no result yet
      because the given fetch replies ran out mid-pagination. */
  datatype ExportResult =
    | Returned(csv: string)
    | Threw(error: Thrown)
    | Unfinished

  /** Everything one call does that can be observed. */
  datatype ExportRun = ExportRun(requests: seq<Request>, writes: seq<FileWrite>, result: ExportResult)

  const EndpointRequired: string := "Endpoint is required"
  const PostTypeRequired: string := "Post type is required"
  const FieldsRequired: string := "At least one field is required"

  /** The option checks, in source order; the first that fails decides. */
  function Validate(options: ExportOptions): (r: Option<Thrown>)
    ensures r.None? <==> options.endpoint != "" && options.postType != "" && |options.fields| > 0
    ensures r.Some? ==> r.value.ErrorObject?
  {
    if options.endpoint == "" then Some(ErrorObject(EndpointRequired))
    else if options.postType == "" then Some(ErrorObject(PostTypeRequired))
    else if |options.fields| == 0 then Some(ErrorObject(FieldsRequired))
    else None
  }

  /** The output file is written only for a non-empty path (`if (outputFile)`). */
  predicate WritesFile(options: ExportOptions) {
    options.outputFile.Some? && options.outputFile.value != ""
  }

  function WriteFailurePrefix(path: string): string {
    "Failed to write to file " + path + ": "
  }

  /** `exportToCSV(options)`. */
  function ExportToCsv(options: ExportOptions, replies: seq<Response>, serialise: Serialiser,
                       write: Writer): (run: ExportRun)
    ensures Validate(options).Some? ==>
              run.requests == [] && run.writes == [] && run.result == Threw(Validate(options).value)
    ensures Validate(options).None? ==>
              run.requests == FetchAllPosts(options.endpoint, options.postType, options.auth,
                                            options.perPage, replies).requests
    ensures run.result.Returned? ==>
              var fetched := FetchAllPosts(options.endpoint, options.postType, options.auth,
                                           options.perPage, replies).outcome;
              && Validate(options).None?
              && fetched.Completed?
              && ToCsv(fetched.items, options.fields, serialise) == Success(run.result.csv)
    ensures |run.writes| <= 1
    ensures |run.writes| == 1 ==>
              && WritesFile(options)
              && run.writes[0].path == options.outputFile.value
              && (run.result.Returned? ==> run.writes[0].text == run.result.csv)
    ensures run.result.Returned? && WritesFile(options) ==> |run.writes| == 1
  {
    match Validate(options)
    case Some(e) => ExportRun([], [], Threw(e))
    case None =>
      var fetched := FetchAllPosts(options.endpoint, options.postType, options.auth, options.perPage, replies);
      match fetched.outcome
      case Aborted(e) => ExportRun(fetched.requests, [], Threw(e))
      case Exhausted(_) => ExportRun(fetched.requests, [], Unfinished)
      case Completed(items) =>
        match ToCsv(items, options.fields, serialise)
        case Failure(e) => ExportRun(fetched.requests, [], Threw(e))
        case Success(csv) =>
          if WritesFile(options) then
            var path := options.outputFile.value;
            match write(path, csv)
            case Some(e) => ExportRun(fetched.requests, [FileWrite(path, csv)], Threw(Wrap(WriteFailurePrefix(path), e)))
            case None => ExportRun(fetched.requests, [FileWrite(path, csv)], Returned(csv))
          else ExportRun(fetched.requests, [], Returned(csv))
  }

  /** What the call ends with once the options pass: the fetcher's
      exception is re-thrown as it is and the serialiser's wrapped
      exception too, neither writing anything; a CSV text is returned when
      no file is asked for or the write succeeds; and when the replies run
      out mid-pagination there is no result yet. */
  lemma ExportOutcome(options: ExportOptions, replies: seq<Response>, serialise: Serialiser, write: Writer)
    requires Validate(options).None?
    ensures var run := ExportToCsv(options, replies, serialise, write);
            var fetched := FetchAllPosts(options.endpoint, options.postType, options.auth,
                                         options.perPage, replies).outcome;
            && (fetched.Aborted? ==> run.result == Threw(fetched.error) && run.writes == [])
            && (fetched.Exhausted? ==> run.result == Unfinished && run.writes == [])
            && (fetched.Completed? ==>
                  var csv := ToCsv(fetched.items, options.fields, serialise);
                  && (csv.Failure? ==> run.result == Threw(csv.error) && run.writes == [])
                  && (csv.Success? && !WritesFile(options) ==>
                        run.result == Returned(csv.value) && run.writes == [])
                  && (csv.Success? && WritesFile(options) && write(options.outputFile.value, csv.value).None? ==>
                        run.result == Returned(csv.value)
                        && run.writes == [FileWrite(options.outputFile.value, csv.value)]))
  {
  }

  /** The checks run in the order endpoint, post type, fields: the first
      failing one decides the error, and nothing is fetched or written. */
  lemma ValidationOrder(options: ExportOptions, replies: seq<Response>, serialise: Serialiser, write: Writer)
    ensures var run := ExportToCsv(options, replies, serialise, write);
            && (options.endpoint == "" ==>
                  run == ExportRun([], [], Threw(ErrorObject(EndpointRequired))))
            && (options.endpoint != "" && options.postType == "" ==>
                  run == ExportRun([], [], Threw(ErrorObject(PostTypeRequired))))
            && (options.endpoint != "" && options.postType != "" && |options.fields| == 0 ==>
                  run == ExportRun([], [], Threw(ErrorObject(FieldsRequired))))
            && (options.endpoint != "" && options.postType != "" && |options.fields| > 0 ==>
                  |run.requests| >= 1 || |replies| == 0)
  {
    if options.endpoint != "" && options.postType != "" && |options.fields| > 0 && |replies| > 0 {
      var fetched := FetchAllPosts(options.endpoint, options.postType, options.auth, options.perPage, replies);
      assert |fetched.requests| >= 1;
    }
  }

  /** Zero items is not an error: the result is the empty text, and that
      empty text is what gets written. */
  lemma EmptyExport(options: ExportOptions, replies: seq<Response>, serialise: Serialiser, write: Writer)
    requires Validate(options).None?
    requires FetchAllPosts(options.endpoint, options.postType, options.auth, options.perPage, replies).outcome
             == Completed([])
    requires WritesFile(options) ==> write(options.outputFile.value, "").None?
    ensures ExportToCsv(options, replies, serialise, write).result == Returned("")
    ensures forall w :: w in ExportToCsv(options, replies, serialise, write).writes ==> w.text == ""
  {
  }

  /** A failed write aborts with the path and the cause, after the CSV
      text was computed and handed to the file system. */
  lemma WriteFailure(options: ExportOptions, replies: seq<Response>, serialise: Serialiser, write: Writer)
    requires Validate(options).None? && WritesFile(options)
    requires var fetched := FetchAllPosts(options.endpoint, options.postType, options.auth, options.perPage, replies).outcome;
             && fetched.Completed?
             && ToCsv(fetched.items, options.fields, serialise).Success?
             && write(options.outputFile.value, ToCsv(fetched.items, options.fields, serialise).value).Some?
    ensures var run := ExportToCsv(options, replies, serialise, write);
            var fetched := FetchAllPosts(options.endpoint, options.postType, options.auth, options.perPage, replies).outcome;
            var csv := ToCsv(fetched.items, options.fields, serialise).value;
            var path := options.outputFile.value;
            && run.writes == [FileWrite(path, csv)]
            && run.result == Threw(Wrap(WriteFailurePrefix(path), write(path, csv).value))
  {
  }

  /** End to end, for replies whose first terminating page `k` is an
      empty or non-array body: the pages before it are fetched with the
      default page size when none is given; the CSV of their items,
      concatenated in page order, is returned when the serialiser and the
      write succeed, and the serialiser's failure is thrown otherwise. */
  lemma ExportSpec(options: ExportOptions, replies: seq<Response>, serialise: Serialiser, write: Writer, k: nat)
    requires Validate(options).None?
    requires FirstStop(replies, k) && replies[k].Body?
    ensures var run := ExportToCsv(options, replies, serialise, write);
            && |run.requests| == k + 1
            && (forall i :: 0 <= i < |run.requests| ==>
                  run.requests[i].url == PageUrl(options.endpoint, options.postType,
                                                 options.perPage.GetOr(DefaultPerPage), i + 1))
            && (run.result.Returned? ==>
                  ToCsv(Concat(replies[..k]), options.fields, serialise) == Success(run.result.csv))
            && (run.result.Returned? || run.result.Threw?)
            && var csv := ToCsv(Concat(replies[..k]), options.fields, serialise);
               && (csv.Failure? ==> run.result == Threw(csv.error))
               && (csv.Success? && (WritesFile(options) ==> write(options.outputFile.value, csv.value).None?) ==>
                     run.result == Returned(csv.value))
  {
    FetchAllPostsSpec(options.endpoint, options.postType, options.auth, options.perPage, replies, k);
    ExportOutcome(options, replies, serialise, write);
  }
}
