/**
 * The persisted photo record (`data/photo/model/PhotoEntity.kt`): an id, the
 * source image URI, the two crops with their corners embedded as columns,
 * and the creation time in milliseconds.
 */
module PhotoEntity {
  datatype PointFEmbeddable = PointFEmbeddable(x: real, y: real)
  datatype CropRectEmbeddable = CropRectEmbeddable(topLeft: PointFEmbeddable, bottomRight: PointFEmbeddable)
  datatype PhotoEntity = PhotoEntity(
    id: string,
    originalUri: string,
    squareCrop: CropRectEmbeddable,
    rectCrop: CropRectEmbeddable,
    createdAt: int)
}

/**
 * The domain photo record and its mapping to and from the persisted record
 * (`domain/photo/model/PhotoDomain.kt`).
 */
module PhotoDomain {
  import E = PhotoEntity

  datatype PointFDomain = PointFDomain(x: real, y: real)
  datatype CropRectDomain = CropRectDomain(topLeft: PointFDomain, bottomRight: PointFDomain)
  datatype PhotoDomain = PhotoDomain(
    id: string,
    originalUri: string,
    squareCrop: CropRectDomain,
    rectCrop: CropRectDomain,
    createdAt: int)

  /** The crop with the same four coordinates as an embedded column group. */
  function CropToEmbeddable(c: CropRectDomain): (e: E.CropRectEmbeddable)
    ensures e.topLeft.x == c.topLeft.x && e.topLeft.y == c.topLeft.y
    ensures e.bottomRight.x == c.bottomRight.x && e.bottomRight.y == c.bottomRight.y
  {
    E.CropRectEmbeddable(E.PointFEmbeddable(c.topLeft.x, c.topLeft.y), E.PointFEmbeddable(c.bottomRight.x, c.bottomRight.y))
  }

  /** The embedded column group with the same four coordinates as a domain crop. */
  function CropFromEmbeddable(c: E.CropRectEmbeddable): (d: CropRectDomain)
    ensures d.topLeft.x == c.topLeft.x && d.topLeft.y == c.topLeft.y
    ensures d.bottomRight.x == c.bottomRight.x && d.bottomRight.y == c.bottomRight.y
  {
    CropRectDomain(PointFDomain(c.topLeft.x, c.topLeft.y), PointFDomain(c.bottomRight.x, c.bottomRight.y))
  }

  /** `PhotoDomain.toEntity`: every field carried over, the crop corners coordinate by coordinate. */
  function ToEntity(d: PhotoDomain): (e: E.PhotoEntity)
    ensures e.id == d.id && e.originalUri == d.originalUri && e.createdAt == d.createdAt
    ensures e.squareCrop.topLeft.x == d.squareCrop.topLeft.x && e.squareCrop.topLeft.y == d.squareCrop.topLeft.y
    ensures e.squareCrop.bottomRight.x == d.squareCrop.bottomRight.x && e.squareCrop.bottomRight.y == d.squareCrop.bottomRight.y
    ensures e.rectCrop.topLeft.x == d.rectCrop.topLeft.x && e.rectCrop.topLeft.y == d.rectCrop.topLeft.y
    ensures e.rectCrop.bottomRight.x == d.rectCrop.bottomRight.x && e.rectCrop.bottomRight.y == d.rectCrop.bottomRight.y
  {
    E.PhotoEntity(d.id, d.originalUri, CropToEmbeddable(d.squareCrop), CropToEmbeddable(d.rectCrop), d.createdAt)
  }

  /** `PhotoEntity.toDomain`: every field carried over, the crop corners coordinate by coordinate. */
  function ToDomain(e: E.PhotoEntity): (d: PhotoDomain)
    ensures d.id == e.id && d.originalUri == e.originalUri && d.createdAt == e.createdAt
    ensures d.squareCrop.topLeft.x == e.squareCrop.topLeft.x && d.squareCrop.topLeft.y == e.squareCrop.topLeft.y
    ensures d.squareCrop.bottomRight.x == e.squareCrop.bottomRight.x && d.squareCrop.bottomRight.y == e.squareCrop.bottomRight.y
    ensures d.rectCrop.topLeft.x == e.rectCrop.topLeft.x && d.rectCrop.topLeft.y == e.rectCrop.topLeft.y
    ensures d.rectCrop.bottomRight.x == e.rectCrop.bottomRight.x && d.rectCrop.bottomRight.y == e.rectCrop.bottomRight.y
  {
    PhotoDomain(e.id, e.originalUri, CropFromEmbeddable(e.squareCrop), CropFromEmbeddable(e.rectCrop), e.createdAt)
  }

  /** The crop column mappings are inverse to each other. */
  lemma CropEmbeddableRoundTrip(c: CropRectDomain, e: E.CropRectEmbeddable)
    ensures CropFromEmbeddable(CropToEmbeddable(c)) == c
    ensures CropToEmbeddable(CropFromEmbeddable(e)) == e
  {
  }

  /** Storing a record and reading it back gives the same record. */
  lemma EntityRoundTrip(d: PhotoDomain)
    ensures ToDomain(ToEntity(d)) == d
  {
  }

  /** Reading a stored row and storing it again gives the same row. */
  lemma DomainRoundTrip(e: E.PhotoEntity)
    ensures ToEntity(ToDomain(e)) == e
  {
  }

  /** Distinct records are stored as distinct rows. */
  lemma ToEntityInjective(a: PhotoDomain, b: PhotoDomain)
    ensures ToEntity(a) == ToEntity(b) <==> a == b
  {
    EntityRoundTrip(a);
    EntityRoundTrip(b);
  }
}

/**
 * The record the crop screen hands to the save callback, and its mapping to
 * and from the domain record (`ui/model/PhotoUi.kt`).
 */
module PhotoUi {
  import opened CropModels
  import D = PhotoDomain

  datatype PhotoUi = PhotoUi(
    id: string,
    originalUri: string,
    squareCrop: CropRect,
    rectCrop: CropRect,
    createdAt: int)

  /** The crop with the same four coordinates as a domain crop. */
  function CropToDomain(c: CropRect): (d: D.CropRectDomain)
    ensures d.topLeft.x == c.topLeft.x && d.topLeft.y == c.topLeft.y
    ensures d.bottomRight.x == c.bottomRight.x && d.bottomRight.y == c.bottomRight.y
  {
    D.CropRectDomain(D.PointFDomain(c.topLeft.x, c.topLeft.y), D.PointFDomain(c.bottomRight.x, c.bottomRight.y))
  }

  /** The domain crop with the same four coordinates as a screen-layer crop. */
  function CropToUi(c: D.CropRectDomain): (u: CropRect)
    ensures u.topLeft.x == c.topLeft.x && u.topLeft.y == c.topLeft.y
    ensures u.bottomRight.x == c.bottomRight.x && u.bottomRight.y == c.bottomRight.y
  {
    CropRect(PointF(c.topLeft.x, c.topLeft.y), PointF(c.bottomRight.x, c.bottomRight.y))
  }

  /** `PhotoUi.toDomain`: every field carried over, the crop corners coordinate by coordinate. */
  function ToDomain(u: PhotoUi): (d: D.PhotoDomain)
    ensures d.id == u.id && d.originalUri == u.originalUri && d.createdAt == u.createdAt
    ensures d.squareCrop.topLeft.x == u.squareCrop.topLeft.x && d.squareCrop.topLeft.y == u.squareCrop.topLeft.y
    ensures d.squareCrop.bottomRight.x == u.squareCrop.bottomRight.x && d.squareCrop.bottomRight.y == u.squareCrop.bottomRight.y
    ensures d.rectCrop.topLeft.x == u.rectCrop.topLeft.x && d.rectCrop.topLeft.y == u.rectCrop.topLeft.y
    ensures d.rectCrop.bottomRight.x == u.rectCrop.bottomRight.x && d.rectCrop.bottomRight.y == u.rectCrop.bottomRight.y
  {
    D.PhotoDomain(u.id, u.originalUri, CropToDomain(u.squareCrop), CropToDomain(u.rectCrop), u.createdAt)
  }

  /** `PhotoDomain.toUi`: every field carried over, the crop corners coordinate by coordinate. */
  function ToUi(d: D.PhotoDomain): (u: PhotoUi)
    ensures u.id == d.id && u.originalUri == d.originalUri && u.createdAt == d.createdAt
    ensures u.squareCrop.topLeft.x == d.squareCrop.topLeft.x && u.squareCrop.topLeft.y == d.squareCrop.topLeft.y
    ensures u.squareCrop.bottomRight.x == d.squareCrop.bottomRight.x && u.squareCrop.bottomRight.y == d.squareCrop.bottomRight.y
    ensures u.rectCrop.topLeft.x == d.rectCrop.topLeft.x && u.rectCrop.topLeft.y == d.rectCrop.topLeft.y
    ensures u.rectCrop.bottomRight.x == d.rectCrop.bottomRight.x && u.rectCrop.bottomRight.y == d.rectCrop.bottomRight.y
  {
    PhotoUi(d.id, d.originalUri, CropToUi(d.squareCrop), CropToUi(d.rectCrop), d.createdAt)
  }

  /** The crop mappings between the screen layer and the domain are inverse to each other. */
  lemma CropDomainRoundTrip(c: CropRect, d: D.CropRectDomain)
    ensures CropToUi(CropToDomain(c)) == c
    ensures CropToDomain(CropToUi(d)) == d
  {
  }

  /** Mapping a screen record to the domain and back gives the same record. */
  lemma UiRoundTrip(u: PhotoUi)
    ensures ToUi(ToDomain(u)) == u
  {
  }

  /** Mapping a domain record to the screen layer and back gives the same record. */
  lemma DomainRoundTrip(d: D.PhotoDomain)
    ensures ToDomain(ToUi(d)) == d
  {
  }

  /** A saved record survives the whole trip to storage and back unchanged. */
  lemma StorageRoundTrip(u: PhotoUi)
    ensures ToUi(D.ToDomain(D.ToEntity(ToDomain(u)))) == u
  {
    D.EntityRoundTrip(ToDomain(u));
    UiRoundTrip(u);
  }
}
