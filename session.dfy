/**
 The plugin's hooks over one pytest run (conftest.py): `pytest_configure`
 checks the archiving options and picks a default report name,
 `pytest_collection_modifyitems` writes the test plan and stops the run, and
 `pytest_sessionfinish` archives the report and removes the local copy.
 A `Session` holds what those hooks read and change: the options given on the
 command line, the two options of the HTML report plugin the hooks rewrite
 (`htmlpath`, `self_contained_html`), the module-level `now`, the plan file's
 rows, whether the local report file exists, and the objects in the bucket.
 */
module Session {
  import opened Wrappers
  import opened Archive
  import opened Plan

  /** The options `pytest_addoption` declares, as given on the command line. */
  datatype Options = Options(
    testplan: Option<string>,
    serviceKey: Option<string>,
    bucket: Option<string>,
    filename: string)

  /** Python truthiness of an option: set and not the empty string. */
  predicate Truthy(o: Option<string>) {
    o.Some? && o.value != ""
  }

  /** The defaults `pytest_addoption` declares: no plan, no archiving, and
      reports named after "report". */
  function DefaultOptions(): (o: Options)
    ensures !Truthy(o.testplan) && !Truthy(o.serviceKey) && !Truthy(o.bucket)
    ensures o.filename == "report"
  {
    Options(None, None, None, "report")
  }

  /** Archiving is on when both the service key and the bucket are given,
      off when neither is, and misconfigured when only one is. */
  datatype ArchiveMode = Off | On | Incomplete

  function Mode(o: Options): (m: ArchiveMode)
    ensures m == Off <==> !Truthy(o.serviceKey) && !Truthy(o.bucket)
    ensures m == On <==> Truthy(o.serviceKey) && Truthy(o.bucket)
    ensures m == Incomplete <==> Truthy(o.serviceKey) != Truthy(o.bucket)
  {
    if !Truthy(o.serviceKey) && !Truthy(o.bucket) then Off
    else if Truthy(o.serviceKey) && Truthy(o.bucket) then On
    else Incomplete
  }

  lemma DefaultsArchiveOff()
    ensures Mode(DefaultOptions()) == Off
  {
  }

  datatype Error = NoDocstring(index: nat) | UploadFailed

  /** How a hook ends: the run goes on, `pytest.exit` stops it with a
      message, or an exception escapes the hook. */
  datatype Outcome = Continue | Exit(message: string) | Raise(error: Error)

  function MissingOptionsMessage(): string {
    "ERROR: gcs plugin requires: --gcs-service-key and --gcs-bucket"
  }

  function PlanMessage(path: string): string {
    "Generated test plan: " + path
  }

  class Session {
    const options: Options
    /** `config.option.htmlpath`, the local report file of the HTML plugin. */
    var htmlpath: Option<string>
    /** `config.option.self_contained_html`. */
    var selfContained: bool
    /** The module-level `now`. */
    var now: DateTime
    /** The rows of the plan file, header first, once the plan is written. */
    var rows: seq<Row>
    var planPath: Option<string>
    /** Whether a file exists at `htmlpath`. */
    var localFileExists: bool
    /** The bucket's objects: each key and the local path uploaded under it. */
    var archived: map<string, string>

    predicate Valid()
      reads this
    {
      ValidDateTime(now)
    }

    /** Archiving can proceed: with a bucket, the key is given too and there
        is a report path to upload. */
    predicate ReadyToArchive()
      reads this
    {
      Truthy(options.bucket) ==> Truthy(options.serviceKey) && Truthy(htmlpath)
    }

    /** The state at import: `now` is the import time, nothing written. */
    constructor (options: Options, htmlpath: Option<string>, selfContained: bool, importTime: DateTime)
      requires ValidDateTime(importTime)
      ensures Valid()
      ensures this.options == options && this.htmlpath == htmlpath
      ensures this.selfContained == selfContained && now == importTime
      ensures rows == [] && planPath == None && !localFileExists && archived == map[]
    {
      this.options := options;
      this.htmlpath := htmlpath;
      this.selfContained := selfContained;
      now := importTime;
      rows := [];
      planPath := None;
      localFileExists := false;
      archived := map[];
    }

    /** `pytest_configure`, with `clock` the value of `datetime.now()`. */
    method Configure(clock: DateTime) returns (outcome: Outcome)
      requires Valid() && ValidDateTime(clock)
      modifies this`htmlpath, this`selfContained, this`now
      ensures Valid()
      ensures Mode(options) == Incomplete ==>
        outcome == Exit(MissingOptionsMessage()) &&
        htmlpath == old(htmlpath) && selfContained == old(selfContained) && now == old(now)
      ensures Mode(options) == Off ==>
        outcome == Continue &&
        htmlpath == old(htmlpath) && selfContained == old(selfContained) && now == old(now)
      ensures Mode(options) == On ==>
        outcome == Continue && selfContained && now == clock &&
        htmlpath == (if Truthy(old(htmlpath)) then old(htmlpath)
                     else Some(DefaultReportName(old(now), options.filename)))
      ensures outcome == Continue ==> ReadyToArchive()
    {
      var key, bucket := options.serviceKey, options.bucket;
      if Truthy(key) || Truthy(bucket) {
        if !(Truthy(key) && Truthy(bucket)) {
          return Exit(MissingOptionsMessage());
        }
        if !Truthy(htmlpath) {
          var name := DefaultReportName(now, options.filename);
          htmlpath := Some(name);
        }
        selfContained := true;
        now := clock;
      }
      outcome := Continue;
    }

    /** `pytest_collection_modifyitems`: with `--testplan` set, write the
        header and one row per item to that path, then stop the run. */
    method CollectPlan(items: seq<TestItem>) returns (outcome: Outcome)
      modifies this`rows, this`planPath
      ensures !Truthy(options.testplan) ==>
        outcome == Continue && rows == old(rows) && planPath == old(planPath)
      ensures Truthy(options.testplan) ==>
        planPath == options.testplan && rows == [Header()] + Written(items) &&
        outcome == (if AllDocumented(items) then Exit(PlanMessage(options.testplan.value))
                    else Raise(NoDocstring(|Written(items)|)))
      ensures outcome.Exit? ==> PlanRows(items) == Success(rows)
      ensures outcome.Raise? ==> PlanRows(items) == Failure(MissingDocstring(outcome.error.index))
    {
      var path := options.testplan;
      if !Truthy(path) {
        return Continue;
      }
      planPath := path;
      rows := [Header()];
      var i := 0;
      while i < |items|
        invariant 0 <= i <= |items|
        invariant AllDocumented(items[..i])
        invariant planPath == path
        invariant rows == [Header()] + Written(items[..i])
      {
        var item := items[i];
        if item.doc.None? {
          WrittenStopsAt(items, i);
          PlanRowsWritten(items);
          return Raise(NoDocstring(i));
        }
        WrittenStep(items, i);
        rows := rows + [RowFor(item)];
        i := i + 1;
      }
      assert items[..i] == items;
      PlanRowsWritten(items);
      outcome := Exit(PlanMessage(path.value));
    }

    /** The HTML report plugin writes its report at `htmlpath`. */
    method ReportWritten()
      modifies this`localFileExists
      ensures localFileExists
    {
      localFileExists := true;
    }

    /** `pytest_sessionfinish`: with a bucket, upload the report under its
        dated key, then delete the local file. `uploadOk` is whether the
        bucket accepts the upload; a missing local file fails it as well. */
    method Finish(uploadOk: bool) returns (outcome: Outcome)
      requires Valid() && ReadyToArchive()
      modifies this`localFileExists, this`archived
      ensures !Truthy(options.bucket) ==>
        outcome == Continue && localFileExists == old(localFileExists) && archived == old(archived)
      ensures Truthy(options.bucket) ==>
        var src := htmlpath.value;
        if uploadOk && old(localFileExists) then
          outcome == Continue && !localFileExists && archived == old(archived)[ArchiveKey(now, src) := src]
        else
          outcome == Raise(UploadFailed) && localFileExists == old(localFileExists) && archived == old(archived)
    {
      if Truthy(options.bucket) {
        var src := htmlpath.value;
        var dst := ArchiveKey(now, src);
        if !(uploadOk && localFileExists) {
          return Raise(UploadFailed);
        }
        archived := archived[dst := src];
        localFileExists := false;
      }
      outcome := Continue;
    }
  }
}
