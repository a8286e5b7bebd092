/** The object descriptors the listing store hands to the preview. */
module Media {

  /** The kind of a listed object. The full enumeration lives in the
      application's type definitions, which are not part of this model; the
      preview only ever compares against VIDEO, so every other member is
      `Other`, carrying its numeric code. */
  datatype ObjType = Video | Other(code: int)

  /** A listed object: its file name and its kind. Fields the preview never
      reads (size, modification time, ...) are not modelled. */
  datatype Obj = Obj(name: string, kind: ObjType)
}
