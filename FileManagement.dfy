/** The upload endpoint (FileManagementController.UploadFiles): reject a request
    without file parts, build one upload object per non-empty part, hand the batch
    to the storage adapter and turn its records into the HTTP answer. */
module FileManagement {
  import opened Models
  import StorageService

  /** A file part of the multipart form: the client-supplied file name and its bytes
      (the part's Length is the number of bytes). */
  datatype FormFile = FormFile(fileName: string, content: seq<byte>)

  /** What the action answers with: a plain message, the `{ Error = ... }` object, or the record list. */
  datatype ResultBody =
    | Message(text: string)
    | ErrorList(error: seq<S3ResponseDto>)
    | ResponseList(items: seq<S3ResponseDto>)

  datatype ActionResult = ActionResult(statusCode: int, body: ResultBody)

  /** `BadRequest(text)`. */
  function BadRequest(text: string): (r: ActionResult)
    ensures r.statusCode == 400 && r.body == Message(text)
  {
    ActionResult(400, Message(text))
  }

  /** `Ok(items)`. */
  function Ok(items: seq<S3ResponseDto>): (r: ActionResult)
    ensures r.statusCode == 200 && r.body == ResponseList(items)
  {
    ActionResult(200, ResponseList(items))
  }

  /** A part takes part in the batch unless its length is zero or less. */
  predicate Uploadable(file: FormFile)
  {
    !(|file.content| <= 0)
  }

  /** The upload object built for a part: every byte copied into a fresh stream that
      is then rewound, the client's file name as key and the configured bucket. */
  function ToUploadObject(file: FormFile, bucket: string): (o: S3UploadObject)
    ensures o.key == file.fileName && o.bucketName == bucket
    ensures o.inputStream.data == file.content && o.inputStream.position == 0
  {
    S3UploadObject(file.fileName, Rewind(Write(EmptyStream(), file.content)), bucket)
  }

  /** The batch the loop builds from the parts: the upload objects of the
      uploadable parts, in request order. */
  function Batch(files: seq<FormFile>, bucket: string): (objs: seq<S3UploadObject>)
    ensures |objs| <= |files|
    ensures forall k :: 0 <= k < |objs| ==>
              objs[k].bucketName == bucket && objs[k].inputStream.position == 0 && |objs[k].inputStream.data| > 0
  {
    if files == [] then []
    else
      var last := files[|files| - 1];
      Batch(files[..|files| - 1], bucket) + (if Uploadable(last) then [ToUploadObject(last, bucket)] else [])
  }

  /** The records the endpoint counts as failures. */
  predicate IsError(r: S3ResponseDto)
  {
    r.statusCode >= 400
  }

  /** `responses.Where(r => r.StatusCode >= 400)`: the failing records, in their order. */
  function ErrorResponses(rs: seq<S3ResponseDto>): (es: seq<S3ResponseDto>)
    ensures |es| <= |rs|
    ensures forall x :: x in es <==> x in rs && IsError(x)
  {
    if rs == [] then []
    else (if IsError(rs[0]) then [rs[0]] else []) + ErrorResponses(rs[1..])
  }

  /** The answer built from the adapter's records: the first failure's status with all
      failures, or 200 with every record. */
  function Aggregate(rs: seq<S3ResponseDto>): (r: ActionResult)
    ensures (exists i :: 0 <= i < |rs| && IsError(rs[i])) <==> r.statusCode >= 400
    ensures (exists i :: 0 <= i < |rs| && IsError(rs[i])) <==> r.body.ErrorList?
    ensures r.body.ErrorList? ==>
              r.body.error == ErrorResponses(rs) && |r.body.error| > 0 && r.statusCode == r.body.error[0].statusCode
    ensures !r.body.ErrorList? ==> r == Ok(rs)
  {
    var es := ErrorResponses(rs);
    assert |es| > 0 ==> es[0] in rs && IsError(es[0]);
    assert forall i :: 0 <= i < |rs| && IsError(rs[i]) ==> rs[i] in es;
    if |es| > 0 then ActionResult(es[0].statusCode, ErrorList(es)) else Ok(rs)
  }

  /** The whole endpoint as a function of the request's parts, the configuration and the SDK. */
  function Endpoint(files: seq<FormFile>, config: AwsCredentials, transfer: StorageService.Transfer): (r: ActionResult)
    ensures |files| == 0 ==> r == BadRequest("No files")
    ensures r.statusCode == 200 || r.statusCode >= 400
  {
    if |files| == 0 then BadRequest("No files")
    else Aggregate(StorageService.UploadFiles(Batch(files, config.bucketName), config, transfer))
  }

  /** FileManagementController.UploadFiles. `sent` is the batch handed to the storage
      adapter, or None when the adapter is never called. */
  method UploadFiles(files: seq<FormFile>, config: AwsCredentials, transfer: StorageService.Transfer)
    returns (result: ActionResult, sent: Option<seq<S3UploadObject>>)
    ensures sent.None? <==> |files| == 0
    ensures sent.Some? ==> sent.value == Batch(files, config.bucketName)
    ensures result == Endpoint(files, config, transfer)
  {
    if |files| == 0 {
      return BadRequest("No files"), None;
    }

    var awsCredentials := AwsCredentials(config.accessKey, config.secretKey, config.region, config.bucketName);

    var uploadObjects: seq<S3UploadObject> := [];

    for i := 0 to |files|
      invariant uploadObjects == Batch(files[..i], awsCredentials.bucketName)
    {
      assert files[..i + 1][..i] == files[..i];
      var file := files[i];
      if |file.content| <= 0 {
        continue;
      }
      var memoryStream := EmptyStream();
      memoryStream := Write(memoryStream, file.content);
      memoryStream := Rewind(memoryStream);

      var uploadObject := S3UploadObject(file.fileName, memoryStream, awsCredentials.bucketName);

      uploadObjects := uploadObjects + [uploadObject];
    }
    assert files[..|files|] == files;

    var responses := StorageService.UploadFiles(uploadObjects, awsCredentials, transfer);

    var errorResponses := ErrorResponses(responses);

    if |errorResponses| > 0 {
      var firstError := errorResponses[0];
      return ActionResult(firstError.statusCode, ErrorList(errorResponses)), Some(uploadObjects);
    }

    return Ok(responses), Some(uploadObjects);
  }

  // ---------------------------------------------------------------------------
  // The batch

  /** Building from a concatenation of parts is concatenating the two batches: the
      batch keeps request order. */
  lemma {:induction false} BatchAppend(a: seq<FormFile>, b: seq<FormFile>, bucket: string)
    ensures Batch(a + b, bucket) == Batch(a, bucket) + Batch(b, bucket)
  {
    if b == [] {
      assert a + b == a;
    } else {
      var b' := b[..|b| - 1];
      assert (a + b)[..|a + b| - 1] == a + b';
      assert (a + b)[|a + b| - 1] == b[|b| - 1];
      BatchAppend(a, b', bucket);
    }
  }

  /** A single part contributes its upload object exactly when it is non-empty. */
  lemma BatchSingle(file: FormFile, bucket: string)
    ensures Batch([file], bucket) == if Uploadable(file) then [ToUploadObject(file, bucket)] else []
  {
  }

  /** Every object of the batch comes from an uploadable part of the request. */
  lemma {:induction false} BatchFromUploadable(files: seq<FormFile>, bucket: string, k: nat)
    requires k < |Batch(files, bucket)|
    ensures exists i :: 0 <= i < |files| && Uploadable(files[i]) && Batch(files, bucket)[k] == ToUploadObject(files[i], bucket)
  {
    var front := files[..|files| - 1];
    var last := files[|files| - 1];
    if k < |Batch(front, bucket)| {
      BatchFromUploadable(front, bucket, k);
      var i :| 0 <= i < |front| && Uploadable(front[i]) && Batch(front, bucket)[k] == ToUploadObject(front[i], bucket);
      assert files[i] == front[i];
    } else {
      assert Batch(files, bucket)[k] == ToUploadObject(last, bucket);
    }
  }

  /** Every uploadable part of the request has its object in the batch. */
  lemma {:induction false} UploadableInBatch(files: seq<FormFile>, bucket: string, i: nat)
    requires i < |files| && Uploadable(files[i])
    ensures ToUploadObject(files[i], bucket) in Batch(files, bucket)
  {
    var front := files[..|files| - 1];
    if i < |files| - 1 {
      assert files[i] == front[i];
      UploadableInBatch(front, bucket, i);
    }
  }

  /** The batch is empty exactly when no part is uploadable. */
  lemma {:induction false} BatchEmptyIff(files: seq<FormFile>, bucket: string)
    ensures Batch(files, bucket) == [] <==> forall i :: 0 <= i < |files| ==> !Uploadable(files[i])
  {
    if Batch(files, bucket) == [] {
      forall i | 0 <= i < |files|
        ensures !Uploadable(files[i])
      {
        if Uploadable(files[i]) {
          UploadableInBatch(files, bucket, i);
        }
      }
    }
    if Batch(files, bucket) != [] {
      BatchFromUploadable(files, bucket, 0);
    }
  }

  // ---------------------------------------------------------------------------
  // The aggregation

  /** The failure filter keeps order across a concatenation. */
  lemma {:induction false} ErrorResponsesAppend(a: seq<S3ResponseDto>, b: seq<S3ResponseDto>)
    ensures ErrorResponses(a + b) == ErrorResponses(a) + ErrorResponses(b)
  {
    if a == [] {
      assert a + b == b;
    } else {
      assert (a + b)[1..] == a[1..] + b;
      ErrorResponsesAppend(a[1..], b);
    }
  }

  /** The first failure kept is the earliest failing record. */
  lemma {:induction false} FirstErrorIsEarliest(rs: seq<S3ResponseDto>, j: nat)
    requires j < |rs| && IsError(rs[j])
    requires forall i :: 0 <= i < j ==> !IsError(rs[i])
    ensures |ErrorResponses(rs)| > 0 && ErrorResponses(rs)[0] == rs[j]
  {
    if j > 0 {
      FirstErrorIsEarliest(rs[1..], j - 1);
    }
  }

  /** With a failure at j and none before it, the answer carries rs[j]'s status and
      exactly the failing records. */
  lemma AggregateFirstError(rs: seq<S3ResponseDto>, j: nat)
    requires j < |rs| && IsError(rs[j])
    requires forall i :: 0 <= i < j ==> !IsError(rs[i])
    ensures Aggregate(rs) == ActionResult(rs[j].statusCode, ErrorList(ErrorResponses(rs)))
  {
    FirstErrorIsEarliest(rs, j);
  }

  /** Without failures the answer is 200 with the records unchanged. */
  lemma AggregateNoError(rs: seq<S3ResponseDto>)
    requires forall i :: 0 <= i < |rs| ==> !IsError(rs[i])
    ensures Aggregate(rs) == Ok(rs)
  {
  }

  // ---------------------------------------------------------------------------
  // The endpoint as a whole

  /** Parts that are all empty pass the emptiness check, the adapter receives an empty
      batch, and the answer is 200 with no records. */
  lemma AllPartsEmpty(files: seq<FormFile>, config: AwsCredentials, transfer: StorageService.Transfer)
    requires |files| > 0
    requires forall i :: 0 <= i < |files| ==> |files[i].content| == 0
    ensures Batch(files, config.bucketName) == []
    ensures Endpoint(files, config, transfer) == Ok([])
  {
    BatchEmptyIff(files, config.bucketName);
  }

  /** When every upload succeeds the answer is 200 with one record per uploadable part,
      each "<file name> has been uploaded". */
  lemma AllUploadsSucceed(files: seq<FormFile>, config: AwsCredentials, transfer: StorageService.Transfer)
    requires |files| > 0
    requires forall k :: 0 <= k < |Batch(files, config.bucketName)| ==>
               transfer(StorageService.ClientFor(config), StorageService.RequestFor(Batch(files, config.bucketName)[k]))
               == StorageService.Success
    ensures var batch := Batch(files, config.bucketName);
      && Endpoint(files, config, transfer).statusCode == 200
      && Endpoint(files, config, transfer).body.ResponseList?
      && |Endpoint(files, config, transfer).body.items| == |batch|
      && forall k :: 0 <= k < |batch| ==>
           Endpoint(files, config, transfer).body.items[k] == S3ResponseDto(200, batch[k].key + " has been uploaded")
  {
    var batch := Batch(files, config.bucketName);
    var rs := StorageService.UploadFiles(batch, config, transfer);
    forall k | 0 <= k < |rs|
      ensures !IsError(rs[k])
    {
      assert rs[k] == StorageService.Respond(batch[k], StorageService.Success);
    }
    AggregateNoError(rs);
  }

  /** A service failure that reports a status below 400 is not an error for the endpoint:
      a request whose only upload ends that way is answered 200, failure record included. */
  lemma ServiceFailureBelow400IsOk(file: FormFile, config: AwsCredentials, transfer: StorageService.Transfer,
                                   status: int, reason: string)
    requires Uploadable(file) && status < 400
    requires transfer(StorageService.ClientFor(config), StorageService.RequestFor(ToUploadObject(file, config.bucketName)))
             == StorageService.ServiceError(status, reason)
    ensures Endpoint([file], config, transfer) ==
            Ok([S3ResponseDto(status, file.fileName + " could not be uploaded: " + reason + " " + config.bucketName)])
  {
    BatchSingle(file, config.bucketName);
  }

  /** One ten-byte "a.txt" and one empty "b.txt": the answer holds exactly one record,
      about "a.txt", and is 200 when that upload succeeds. */
  lemma OneEmptyPartSkipped(tenBytes: seq<byte>, config: AwsCredentials, transfer: StorageService.Transfer)
    requires |tenBytes| == 10
    requires transfer(StorageService.ClientFor(config),
                      StorageService.RequestFor(ToUploadObject(FormFile("a.txt", tenBytes), config.bucketName)))
             == StorageService.Success
    ensures Batch([FormFile("a.txt", tenBytes), FormFile("b.txt", [])], config.bucketName)
            == [ToUploadObject(FormFile("a.txt", tenBytes), config.bucketName)]
    ensures Endpoint([FormFile("a.txt", tenBytes), FormFile("b.txt", [])], config, transfer)
            == Ok([S3ResponseDto(200, "a.txt has been uploaded")])
  {
    var files := [FormFile("a.txt", tenBytes), FormFile("b.txt", [])];
    assert files == [files[0]] + [files[1]];
    BatchAppend([files[0]], [files[1]], config.bucketName);
    BatchSingle(files[0], config.bucketName);
    BatchSingle(files[1], config.bucketName);
    var batch := [ToUploadObject(files[0], config.bucketName)];
    var rs := StorageService.UploadFiles(batch, config, transfer);
    assert batch[0].key == "a.txt";
    assert |rs| == 1 && rs[0] == StorageService.Respond(batch[0], StorageService.Success);
    assert "a.txt" + " has been uploaded" == "a.txt has been uploaded";
    assert rs == [S3ResponseDto(200, "a.txt has been uploaded")];
    AggregateNoError(rs);
  }

  /** When some upload fails with status at least 400, the answer's status is that of the
      earliest such object in the batch and its body lists every failing record. */
  lemma FirstFailingUploadDecides(files: seq<FormFile>, config: AwsCredentials, transfer: StorageService.Transfer, j: nat)
    requires |files| > 0
    requires var rs := StorageService.UploadFiles(Batch(files, config.bucketName), config, transfer);
      j < |rs| && IsError(rs[j]) && forall i :: 0 <= i < j ==> !IsError(rs[i])
    ensures var rs := StorageService.UploadFiles(Batch(files, config.bucketName), config, transfer);
      Endpoint(files, config, transfer) == ActionResult(rs[j].statusCode, ErrorList(ErrorResponses(rs)))
  {
    AggregateFirstError(StorageService.UploadFiles(Batch(files, config.bucketName), config, transfer), j);
  }
}
