/** The records the export pipeline reads and writes. */
module Model {

  /** A value that may be absent (an option that was never stored, a file
      that does not exist). */
  datatype Option<T> = None | Some(value: T)

  /** A point in time, in whole seconds. The host stores these as MySQL
      `Y-m-d H:i:s` strings, so one second is the finest resolution. */
  type Timestamp = int

  /** A WGS84 position. The coordinates are opaque to this model: they are
      whatever the projection returns. */
  datatype GeoPoint = GeoPoint(lat: real, lng: real)

  /** The conversion from RGF93 CC44 (EPSG:3944) easting/northing to WGS84.
      It receives the raw meta values, as the plugin passes them. */
  type Projection = (string, string) -> GeoPoint

  /** One published post of type `arbre`, as the host returns it.
      `numero`, `easting` and `northing` are the post meta values `id_arbre`,
      `easting` and `northing` (the empty string when a key is absent);
      `nom` is the post title; `permalink` the absolute post URL.
      `modifiedLocal` is the `post_modified` column, in the site's time zone;
      `modifiedGmt` is `post_modified_gmt`, the same instant in GMT. */
  datatype Tree = Tree(
    id: nat,
    numero: string,
    nom: string,
    easting: string,
    northing: string,
    permalink: string,
    modifiedLocal: Timestamp,
    modifiedGmt: Timestamp)

  /** One object of the exported JSON array. */
  datatype Entry = Entry(id: nat, numero: string, nom: string, lat: real, lng: real, url: string)
}
