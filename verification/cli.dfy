/** The pure parts of the command-line front end in src/cli.ts: the
    required-flag checks, the parsing of the comma-separated field list,
    the choice of authentication from the flags, the options handed to
    the orchestrator, and the row count it reports. */
module Cli {
  import opened Results
  import opened Auth
  import opened Export
  import Text

  /** The flags of the `export` command as the argument parser delivers
      them: absent flags are None; `--post-type` defaults to "posts" and
      `--per-page` is the value `parseInt` gave. */
  datatype Flags = Flags(
    endpoint: Option<string>,
    postType: string,
    fields: Option<string>,
    output: Option<string>,
    username: Option<string>,
    password: Option<string>,
    bearer: Option<string>,
    perPage: int)

  /** Why the command stops before calling the orchestrator. */
  datatype CliError = MissingEndpoint | MissingFields | MissingOutput | NoValidFields

  /** JavaScript truthiness of an optional string: present and non-empty. */
  predicate Given(flag: Option<string>) {
    flag.Some? && flag.value != ""
  }

  /** The required-flag checks, in the order endpoint, fields, output;
      the first missing flag stops the command. */
  function CheckRequired(flags: Flags): (r: Option<CliError>)
    ensures r.None? <==> Given(flags.endpoint) && Given(flags.fields) && Given(flags.output)
    ensures r == Some(MissingEndpoint) <==> !Given(flags.endpoint)
    ensures r == Some(MissingFields) <==> Given(flags.endpoint) && !Given(flags.fields)
    ensures r == Some(MissingOutput) <==> Given(flags.endpoint) && Given(flags.fields) && !Given(flags.output)
  {
    if !Given(flags.endpoint) then Some(MissingEndpoint)
    else if !Given(flags.fields) then Some(MissingFields)
    else if !Given(flags.output) then Some(MissingOutput)
    else None
  }

  /** A well-formed field name: non-empty, comma-free, not starting or
      ending with white space. */
  predicate CleanField(f: string) {
    && f != ""
    && ',' !in f
    && !Text.IsWhitespace(f[0])
    && !Text.IsWhitespace(f[|f| - 1])
  }

  /** The trimmed segments that are not blank, in order. */
  function KeepNonBlank(segments: seq<string>): (fields: seq<string>)
    requires forall i :: 0 <= i < |segments| ==> ',' !in segments[i]
    ensures |fields| <= |segments|
    ensures forall i :: 0 <= i < |fields| ==> CleanField(fields[i])
  {
    if |segments| == 0 then []
    else
      var t := Text.Trim(segments[0]);
      var rest := KeepNonBlank(segments[1..]);
      if t == "" then rest
      else
        assert CleanField(t) by {
          Text.TrimWithin(segments[0], ',');
        }
        [t] + rest
  }

  /** `fields.split(",").map(f => f.trim()).filter(f => f.length > 0)`. */
  function ParseFields(s: string): (fields: seq<string>)
    ensures forall i :: 0 <= i < |fields| ==> CleanField(fields[i])
  {
    KeepNonBlank(Text.Split(s, ','))
  }

  lemma {:induction false} KeepNonBlankAppend(a: seq<string>, b: seq<string>)
    requires forall i :: 0 <= i < |a| ==> ',' !in a[i]
    requires forall i :: 0 <= i < |b| ==> ',' !in b[i]
    ensures KeepNonBlank(a + b) == KeepNonBlank(a) + KeepNonBlank(b)
  {
    if |a| == 0 {
      assert a + b == b;
    } else {
      assert (a + b)[0] == a[0] && (a + b)[1..] == a[1..] + b;
      KeepNonBlankAppend(a[1..], b);
      var x, y := KeepNonBlank(a[1..]), KeepNonBlank(b);
      if Text.Trim(a[0]) != "" {
        var t := [Text.Trim(a[0])];
        assert t + (x + y) == (t + x) + y;
      }
    }
  }

  /** Order is kept: the fields of `a,b` are the fields of `a` followed by
      the fields of `b`. */
  lemma ParseFieldsAppend(a: string, b: string)
    ensures ParseFields(a + "," + b) == ParseFields(a) + ParseFields(b)
  {
    Text.SplitAppend(a, b, ',');
    KeepNonBlankAppend(Text.Split(a, ','), Text.Split(b, ','));
  }

  /** A single segment gives its trimmed text, or nothing when blank. */
  lemma ParseFieldsSegment(s: string)
    requires ',' !in s
    ensures ParseFields(s) == if Text.AllWhitespace(s) then [] else [Text.Trim(s)]
  {
    Text.SplitNoSeparator(s, ',');
    assert [s][1..] == [];
  }

  /** `options.username && options.password` selects basic authentication,
      otherwise `options.bearer` selects a bearer token, otherwise there is
      no authentication. */
  function SelectAuth(username: Option<string>, password: Option<string>, bearer: Option<string>): (auth: Option<AuthConfig>)
    ensures auth.Some? <==> (Given(username) && Given(password)) || Given(bearer)
    ensures auth.Some? ==> auth.value.Basic? || auth.value.Bearer?
    ensures (auth.Some? && auth.value.Basic?) <==> Given(username) && Given(password)
    ensures auth.Some? && auth.value.Basic? ==>
              auth.value.username == username.value && auth.value.password == password.value
    ensures auth.Some? && auth.value.Bearer? ==> auth.value.token == bearer.value
  {
    if Given(username) && Given(password) then Some(Basic(username.value, password.value))
    else if Given(bearer) then Some(Bearer(bearer.value))
    else None
  }

  /** Options for the orchestrator, or the reason the command refuses to
      call it. `resolve` stands for `path.resolve`. */
  function Prepare(flags: Flags, resolve: string -> string): (r: Result<ExportOptions, CliError>)
    ensures r.Failure? <==> CheckRequired(flags).Some? || |ParseFields(flags.fields.value)| == 0
    ensures CheckRequired(flags).Some? ==> r == Failure(CheckRequired(flags).value)
    ensures CheckRequired(flags).None? && |ParseFields(flags.fields.value)| == 0 ==> r == Failure(NoValidFields)
    ensures r.Success? ==>
              && r.value.endpoint == flags.endpoint.value
              && r.value.postType == flags.postType
              && r.value.fields == ParseFields(flags.fields.value)
              && |r.value.fields| > 0
              && r.value.auth == SelectAuth(flags.username, flags.password, flags.bearer)
              && r.value.perPage == Some(flags.perPage)
              && r.value.outputFile == Some(resolve(flags.output.value))
  {
    match CheckRequired(flags)
    case Some(e) => Failure(e)
    case None =>
      var fields := ParseFields(flags.fields.value);
      if |fields| == 0 then Failure(NoValidFields)
      else Success(ExportOptions(flags.endpoint.value, flags.postType, fields,
                                 SelectAuth(flags.username, flags.password, flags.bearer),
                                 Some(flags.perPage), Some(resolve(flags.output.value))))
  }

  /** Options the command line accepts pass the orchestrator's checks,
      unless the post type was set to the empty string. */
  lemma PreparedOptionsValid(flags: Flags, resolve: string -> string)
    requires Prepare(flags, resolve).Success?
    ensures Validate(Prepare(flags, resolve).value).None? <==> flags.postType != ""
  {
  }

  /** `csv.split("\n").length - 1`. */
  function RowCount(csv: string): (n: int)
    ensures n == Text.Count(csv, '\n')
    ensures csv == "" ==> n == 0
  {
    Text.SplitLength(csv, '\n');
    |Text.Split(csv, '\n')| - 1
  }
}
