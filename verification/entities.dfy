/** The records the storefront passes between its pages and its stores. */
module Entities {

  /** A study note as the catalogue pages and the favorites store see it. Fields the pages
      guard (`x && ...`) hold "" when the backend omits them; fields they read without a
      guard (`title`, and `description` on the catalogue page) are assumed present, since a
      missing one makes those pages throw. Prices, counters, ratings and `createdAt`
      (milliseconds since the epoch) are integers and are assumed present. */
  datatype Note = Note(
    id: string,
    title: string,
    description: string,
    category: string,
    subject: string,
    price: int,
    createdAt: int,
    downloads: int,
    rating: int,
    fileUrl: string,
    previewUrl: string)

  function NoteId(n: Note): string {
    n.id
  }

  /** A signed-in identity as the identity provider reports it ("" for a missing email,
      display name or photo). */
  datatype User = User(uid: string, email: string, displayName: string, photoURL: string)
}
