/** The value types shared by the upload endpoint and the storage adapter:
    the credentials bundle, the upload object, the per-file response record
    and the in-memory stream that carries a file's bytes. */
module Models {

  datatype Option<T> = None | Some(value: T)

  newtype byte = x: int | 0 <= x < 256

  /** An in-memory byte buffer with a read position (System.IO.MemoryStream). */
  datatype MemoryStream = MemoryStream(data: seq<byte>, position: nat)

  /** A fresh, empty stream (`new MemoryStream()`). */
  function EmptyStream(): (s: MemoryStream)
    ensures s.data == [] && s.position == 0
  {
    MemoryStream([], 0)
  }

  /** Writing bytes appends them and leaves the position at the end of the buffer. */
  function Write(s: MemoryStream, bytes: seq<byte>): (r: MemoryStream)
    requires s.position == |s.data|
    ensures r.data == s.data + bytes
    ensures r.position == |r.data|
  {
    MemoryStream(s.data + bytes, s.position + |bytes|)
  }

  /** Setting `Position = 0` keeps the bytes and rewinds the stream. */
  function Rewind(s: MemoryStream): (r: MemoryStream)
    ensures r.data == s.data && r.position == 0
  {
    s.(position := 0)
  }

  /** The four configuration strings read for one request. */
  datatype AwsCredentials = AwsCredentials(
    accessKey: string,
    secretKey: string,
    region: string,
    bucketName: string)

  /** One file to be stored: destination bucket, object key and payload. */
  datatype S3UploadObject = S3UploadObject(
    key: string,
    inputStream: MemoryStream,
    bucketName: string)

  /** The per-file outcome reported back to the endpoint. */
  datatype S3ResponseDto = S3ResponseDto(statusCode: int, message: string)
}
