/** The storage adapter (S3StorageService.UploadFiles): one upload per object
    through the cloud SDK, each outcome turned into a status/message record,
    and the records collected in the order of the objects. The SDK call itself is
    the parameter `transfer`; the concurrent fan-out is an order-preserving map. */
module StorageService {
  import opened Models

  /** The only region the adapter ever configures. */
  datatype RegionEndpoint = APSouth1

  /** The SDK client: the key pair from the credentials and the endpoint region. */
  datatype S3Client = S3Client(accessKey: string, secretKey: string, region: RegionEndpoint)

  datatype S3CannedACL = NoACL

  /** The request handed to the SDK's transfer utility for one object. */
  datatype TransferRequest = TransferRequest(
    bucketName: string,
    key: string,
    inputStream: MemoryStream,
    cannedACL: S3CannedACL)

  /** How one SDK upload ends: it returns, it throws an AmazonS3Exception
      (carrying the service's status code and message), or it throws any other exception. */
  datatype Outcome =
    | Success
    | ServiceError(status: int, reason: string)
    | OtherError(reason: string)

  /** The SDK's upload operation, as seen by the adapter. */
  type Transfer = (S3Client, TransferRequest) -> Outcome

  /** The client is built from the access and secret key only; the region is fixed. */
  function ClientFor(credentials: AwsCredentials): (c: S3Client)
    ensures c.accessKey == credentials.accessKey && c.secretKey == credentials.secretKey
    ensures c.region == APSouth1
  {
    S3Client(credentials.accessKey, credentials.secretKey, APSouth1)
  }

  /** Each request targets the object's own bucket and key and sends its own stream. */
  function RequestFor(file: S3UploadObject): (q: TransferRequest)
    ensures q.bucketName == file.bucketName && q.key == file.key
    ensures q.inputStream == file.inputStream && q.cannedACL == NoACL
  {
    TransferRequest(file.bucketName, file.key, file.inputStream, NoACL)
  }

  /** The try/catch around one upload: the record built for an object from its outcome. */
  function Respond(file: S3UploadObject, outcome: Outcome): (r: S3ResponseDto)
    ensures outcome.Success? ==> r.statusCode == 200
    ensures outcome.ServiceError? ==> r.statusCode == outcome.status
    ensures outcome.OtherError? ==> r.statusCode == 500
  {
    match outcome
    case Success =>
      S3ResponseDto(200, file.key + " has been uploaded")
    case ServiceError(status, reason) =>
      S3ResponseDto(status, file.key + " could not be uploaded: " + reason + " " + file.bucketName)
    case OtherError(reason) =>
      S3ResponseDto(500, reason + " " + file.bucketName)
  }

  /** The upload tasks' records in the order of the objects (the role of Task.WhenAll):
      record i is object i's own request, sent through the shared client, mapped by Respond. */
  function UploadEach(client: S3Client, transfer: Transfer, files: seq<S3UploadObject>): (rs: seq<S3ResponseDto>)
    ensures |rs| == |files|
    ensures forall i :: 0 <= i < |files| ==> rs[i] == Respond(files[i], transfer(client, RequestFor(files[i])))
  {
    if files == [] then []
    else [Respond(files[0], transfer(client, RequestFor(files[0])))] + UploadEach(client, transfer, files[1..])
  }

  /** S3StorageService.UploadFiles: one record per object, in input order. */
  function UploadFiles(files: seq<S3UploadObject>, credentials: AwsCredentials, transfer: Transfer)
    : (rs: seq<S3ResponseDto>)
    ensures |rs| == |files|
    ensures forall i :: 0 <= i < |files| ==>
              rs[i] == Respond(files[i], transfer(ClientFor(credentials), RequestFor(files[i])))
  {
    UploadEach(ClientFor(credentials), transfer, files)
  }

  // ---------------------------------------------------------------------------
  // Properties of the per-object mapping

  /** A successful upload is reported as 200 with "<key> has been uploaded". */
  lemma SuccessMessage(file: S3UploadObject)
    ensures Respond(file, Success) == S3ResponseDto(200, file.key + " has been uploaded")
  {
  }

  /** A service failure keeps the service's status, names the key first and the bucket last. */
  lemma ServiceErrorMessage(file: S3UploadObject, status: int, reason: string)
    ensures var r := Respond(file, ServiceError(status, reason));
      && r.statusCode == status
      && r.message == file.key + " could not be uploaded: " + reason + " " + file.bucketName
  {
  }

  /** Any other failure is a 500 whose message is the reason and the bucket:
      it does not depend on the object's key at all. */
  lemma OtherErrorIgnoresKey(file: S3UploadObject, key': string, reason: string)
    ensures Respond(file, OtherError(reason)) == Respond(file.(key := key'), OtherError(reason))
    ensures Respond(file, OtherError(reason)) == S3ResponseDto(500, reason + " " + file.bucketName)
  {
  }

  /** Which outcomes the endpoint will later count as errors (status at least 400):
      every non-SDK failure, and a service failure only when its status is at least 400. */
  lemma RespondErrorClass(file: S3UploadObject, outcome: Outcome)
    ensures Respond(file, outcome).statusCode >= 400 <==>
              (outcome.OtherError? || (outcome.ServiceError? && outcome.status >= 400))
  {
  }

  // ---------------------------------------------------------------------------
  // Properties of the batch

  /** Uploading a concatenation gives the concatenation of the results: no object's
      outcome affects the record of any other object in the batch. A corollary of
      UploadEach's pointwise contract. */
  lemma UploadEachAppend(client: S3Client, transfer: Transfer,
                         a: seq<S3UploadObject>, b: seq<S3UploadObject>)
    ensures UploadEach(client, transfer, a + b) == UploadEach(client, transfer, a) + UploadEach(client, transfer, b)
  {
  }

  /** Sibling independence for the whole adapter: the record of object i is the same
      in any two batches that hold the same object at i, whatever the other objects are
      and however their uploads end. */
  lemma SiblingIndependence(files: seq<S3UploadObject>, files': seq<S3UploadObject>,
                            credentials: AwsCredentials, transfer: Transfer, transfer': Transfer, i: nat)
    requires i < |files| && i < |files'| && files[i] == files'[i]
    requires transfer(ClientFor(credentials), RequestFor(files[i])) ==
             transfer'(ClientFor(credentials), RequestFor(files'[i]))
    ensures UploadFiles(files, credentials, transfer)[i] == UploadFiles(files', credentials, transfer')[i]
  {
  }

  /** Neither the Region nor the BucketName of the credentials influences any result:
      the client's region is always APSouth1 and every request uses its object's own bucket. */
  lemma RegionAndBucketIgnored(files: seq<S3UploadObject>, credentials: AwsCredentials,
                               region': string, bucket': string, transfer: Transfer)
    ensures UploadFiles(files, credentials, transfer) ==
            UploadFiles(files, credentials.(region := region', bucketName := bucket'), transfer)
  {
  }

  /** When every upload succeeds, every record is a 200 naming its own key. */
  lemma AllSucceed(files: seq<S3UploadObject>, credentials: AwsCredentials, transfer: Transfer)
    requires forall i :: 0 <= i < |files| ==> transfer(ClientFor(credentials), RequestFor(files[i])) == Success
    ensures var rs := UploadFiles(files, credentials, transfer);
      forall i :: 0 <= i < |rs| ==> rs[i] == S3ResponseDto(200, files[i].key + " has been uploaded")
  {
  }
}
