# Upload path of the eduShark API, modelled in Dafny

eduShark's C# API has one endpoint, `POST /api/FileManagement/upload`. It takes a
multipart request and forwards every file to an S3 bucket through the AWS SDK's
transfer utility. This project models the two pieces of that path that carry logic.

- **The endpoint** is `FileManagementController.UploadFiles`, modelled in module
  `FileManagement` (FileManagement.dfy).
  - A request with no file parts is answered `400 "No files"`, and the storage adapter
    is never called.
  - Every part whose length is not zero or less becomes an `S3UploadObject`. Its key is
    the client's file name and its bucket is the configured bucket. Its payload is the
    part's bytes in a stream rewound to position 0.
  - The batch goes to the storage adapter, and the adapter's records become the answer.
    If any record has a status of at least 400, the answer carries the first such
    record's status and the list of all failing records. Otherwise it is `200` with
    every record.
  - The `foreach` that builds the batch is a method with a loop (`UploadFiles`). It is
    proved against the specification function `Batch`. The LINQ aggregation is the
    pair of functions `ErrorResponses` and `Aggregate`. `Endpoint` is the whole
    endpoint as a function, and the method's result equals it.
- **The storage adapter** is `S3StorageService.UploadFiles`, modelled in module
  `StorageService` (StorageService.dfy).
  - The client is built from the access key and secret key, with the region fixed to
    `APSouth1`.
  - Each object is uploaded to its own bucket and key. The outcome becomes a record:
    - success is `200` with "`<key> has been uploaded`";
    - an `AmazonS3Exception` gives the service's status with
      "`<key> could not be uploaded: <reason> <bucket>`";
    - any other exception is `500` with "`<reason> <bucket>`".
  - The records come back in input order.
- **Shared value types** are in module `Models` (Models.dfy): `AwsCredentials`,
  `S3UploadObject`, `S3ResponseDto` and a `MemoryStream` value.

The SDK call `TransferUtility.UploadAsync` is a parameter of type
`Transfer = (S3Client, TransferRequest) -> Outcome`. Its outcome is `Success`,
`ServiceError(status, reason)` (an `AmazonS3Exception`) or `OtherError(reason)` (any
other exception). The concurrent fan-out with `Task.WhenAll` is an order-preserving map,
`UploadEach`. `Task.WhenAll` returns results in the order of its task sequence.

The emptiness check at `api/Controllers/FileManagementController.cs:43` counts all
file parts, not only the non-empty ones. So a request whose parts are all empty passes
that check. The adapter then receives an empty batch, and the answer is `200` with an
empty list (`AllPartsEmpty`).

The adapter builds its client with the region fixed to `APSouth1`
(`api/AwsServices/Services/S3StorageService.cs:17-20`). The `Region` string of the
credentials is never read on this path (`RegionAndBucketIgnored`).

Verifying the model also shows a consequence of the code: the endpoint classifies a
failure by its status alone. An `AmazonS3Exception` that reports a status below 400,
such as a 301 redirect, is not counted as an error. A one-part request whose upload
ends that way is answered `200` as if it had succeeded (`ServiceFailureBelow400IsOk`,
`StorageService.RespondErrorClass`).

## Model

| member | source | states |
|---|---|---|
| `FileManagement.UploadFiles` | api/Controllers/FileManagementController.cs:31-94 | The adapter receives no batch exactly when the request has no file parts. When it is called, it receives exactly `Batch(files, bucket)`, which the loop builds under the invariant that the objects so far are the batch of the parts read so far. The answer equals `Endpoint`. |
| `FileManagement.Endpoint` | api/Controllers/FileManagementController.cs:43-93 | No file parts gives `400` with "No files". In every case the outer status is either 200 or at least 400. |
| `FileManagement.ToUploadObject` | api/Controllers/FileManagementController.cs:64-73 | The key is the part's file name, unchanged. The bucket is the configured bucket. The stream holds exactly the part's bytes and is positioned at 0. |
| `FileManagement.Batch` | api/Controllers/FileManagementController.cs:59-76 | The batch has at most as many objects as parts. Every object has the configured bucket, a stream at position 0 and a non-empty payload. |
| `FileManagement.BatchAppend` | api/Controllers/FileManagementController.cs:61-76 | The batch of a concatenation of parts is the concatenation of their batches, so request order is kept. |
| `FileManagement.BatchSingle` | api/Controllers/FileManagementController.cs:63-75 | One part contributes its upload object if it is non-empty, and nothing if its length is 0. |
| `FileManagement.BatchFromUploadable` | api/Controllers/FileManagementController.cs:61-76 | Every object in the batch is the upload object of some non-empty part of the request. |
| `FileManagement.UploadableInBatch` | api/Controllers/FileManagementController.cs:61-76 | Every non-empty part of the request has its upload object in the batch. |
| `FileManagement.BatchEmptyIff` | api/Controllers/FileManagementController.cs:63 | The batch is empty if and only if every part has length 0. |
| `FileManagement.ErrorResponses` | api/Controllers/FileManagementController.cs:81 | A record is kept if and only if it is among the adapter's records and has status at least 400. Nothing is added. |
| `FileManagement.ErrorResponsesAppend` | api/Controllers/FileManagementController.cs:81 | The failure filter distributes over concatenation, so the failing records keep their original order. |
| `FileManagement.FirstErrorIsEarliest` | api/Controllers/FileManagementController.cs:81-86 | The first kept failure is the earliest record whose status is at least 400. |
| `FileManagement.Aggregate` | api/Controllers/FileManagementController.cs:81-93 | There is a failing record if and only if the outer status is at least 400, and if and only if the body is the error list. In that case the body is exactly the failing records and the status is that of their first element. Otherwise the answer is `200` with the records unchanged. |
| `FileManagement.AggregateFirstError` | api/Controllers/FileManagementController.cs:83-91 | If the earliest failing record is at index j, the answer has `rs[j]`'s status and all failing records. |
| `FileManagement.AggregateNoError` | api/Controllers/FileManagementController.cs:93 | If no record has status at least 400, the answer is `200` with the record list unchanged. |
| `FileManagement.AllPartsEmpty` | api/Controllers/FileManagementController.cs:43-93 | A request whose parts all have length 0 passes the emptiness check. The adapter gets an empty batch and the answer is `200` with an empty list. |
| `FileManagement.AllUploadsSucceed` | api/Controllers/FileManagementController.cs:59-93 | If every upload of this request's batch succeeds, the answer is `200` with one record per non-empty part, in order. Each record is `200` with "`<key> has been uploaded`". |
| `FileManagement.ServiceFailureBelow400IsOk` | api/Controllers/FileManagementController.cs:81-93 | A one-part request whose upload ends in a service failure reporting a status below 400 is answered `200`, and that failure record appears in the success list. |
| `FileManagement.OneEmptyPartSkipped` | api/Controllers/FileManagementController.cs:61-93 | A request with a 10-byte "a.txt" and an empty "b.txt" sends only "a.txt". When that upload succeeds, the answer is `200` with the single record "a.txt has been uploaded". |
| `FileManagement.FirstFailingUploadDecides` | api/Controllers/FileManagementController.cs:78-91 | Across the whole endpoint, the outer status is that of the earliest failing upload in the batch, and the body lists every failing record. |
| `StorageService.ClientFor` | api/AwsServices/Services/S3StorageService.cs:13-22 | The client uses the credentials' access key and secret key, and its region is always APSouth1. |
| `StorageService.RequestFor` | api/AwsServices/Services/S3StorageService.cs:31-37 | Each upload request uses the object's own bucket, key and stream, with ACL `NoACL`. |
| `StorageService.Respond` | api/AwsServices/Services/S3StorageService.cs:27-54 | Success gives status 200. A service failure gives the service's status. Any other failure gives 500. |
| `StorageService.UploadEach` | api/AwsServices/Services/S3StorageService.cs:25-57 | There is exactly one record per object, in order. Record i is `Respond` applied to the outcome of object i's own request, sent through the one shared client. |
| `StorageService.UploadFiles` | api/AwsServices/Services/S3StorageService.cs:10-58 | There is one record per input object, in input order. Record i is object i's own request sent with the client built from the credentials, then mapped by `Respond`. |
| `StorageService.SuccessMessage` | api/AwsServices/Services/S3StorageService.cs:38-40 | A successful upload is `200` with "`<key> has been uploaded`". |
| `StorageService.ServiceErrorMessage` | api/AwsServices/Services/S3StorageService.cs:42-46 | A service failure keeps the service's status, with the message "`<key> could not be uploaded: <reason> <bucket>`". |
| `StorageService.OtherErrorIgnoresKey` | api/AwsServices/Services/S3StorageService.cs:47-52 | Any other failure is `500` with "`<reason> <bucket>`", and the record is the same whatever the object's key. |
| `StorageService.RespondErrorClass` | api/AwsServices/Services/S3StorageService.cs:39-51 | A record has status at least 400 exactly when the upload threw a non-service exception, or a service exception with status at least 400. |
| `StorageService.UploadEachAppend` | api/AwsServices/Services/S3StorageService.cs:25-57 | Uploading a concatenation gives the concatenation of the records, so no object affects another object's record. |
| `StorageService.SiblingIndependence` | api/AwsServices/Services/S3StorageService.cs:27-54 | Two batches that hold the same object at index i, with the same outcome for it, give the same record at i, whatever the other objects and their outcomes are. |
| `StorageService.RegionAndBucketIgnored` | api/AwsServices/Services/S3StorageService.cs:13-35 | Changing the credentials' Region or BucketName changes no record. |
| `StorageService.AllSucceed` | api/AwsServices/Services/S3StorageService.cs:38-40 | If every upload succeeds, every record is `200` and names its own object's key. |

## Left out

- The AWS SDK is foreign network code. Only the upload call `TransferUtility.UploadAsync` is the `transfer` parameter; the client (`BasicAWSCredentials`, `AmazonS3Client`, `TransferUtility`) is the value `ClientFor` builds.
- Exceptions raised outside the per-object `try` are not represented. In the source, building the credentials, the client and the transfer utility (`api/AwsServices/Services/S3StorageService.cs:13-23`) and copying a part into its stream (`api/Controllers/FileManagementController.cs:65`) happen outside any `try`, and the controller action catches nothing, so such an exception escapes the action without becoming a record. In the model `ClientFor` and the copy cannot fail, so every object always gets a record.
- The transfer oracle is a function of the client and the request. Two identical requests in one batch therefore get the same outcome in the model, which a real network need not give.
- The concurrency of `Task.WhenAll` is not modelled. It is an order-preserving sequential map, and the tasks share only the client and the transfer utility, which they do not modify.
- ASP.NET plumbing is not modelled: `Request.Form.Files`, routing, dependency injection in `api/Program.cs`, and the JSON serialisation of the `{ Error = ... }` object.
- `IConfiguration` lookups are not modelled. The configuration section is an `AwsCredentials` value. A missing key makes the configuration indexer return null; the `!` operator only silences the compiler's nullable warning. Null strings are not represented. A null Region is never read on this path (`RegionAndBucketIgnored`); a null BucketName would reach each upload request.
- `IStorageService` is only the interface the controller calls through. Program.cs binds it to `S3StorageService`, so the model calls `StorageService.UploadFiles` directly.
- Logging is not modelled: the file-count and file-name lines and the console line in the generic catch block.
- The controller's injected `IAmazonS3` field is never used on this path, so it is not modelled.
- `MemoryStream` is a value with its bytes and position. Disposal and asynchronous copying are not represented.
- An `IFormFile` length is the number of its bytes. A negative `Length` cannot occur in the model; the `<= 0` test is kept as written.
- HTTP status codes are unbounded integers. No check is made that a service status is a valid HTTP code.
- `data-processing/processing.py` and `data-processing/cleanup.py` are not modelled. They are an ffmpeg subprocess, a speech-recognition model, an interactive prompt and file deletion: I/O and foreign code with no logic on the upload path.
- StorageService.OtherErrorIgnoresKey: states that the message is exactly the reason and the bucket and does not depend on the key. It does not state that the key is absent, because the exception's reason or the bucket name can itself contain the key.
