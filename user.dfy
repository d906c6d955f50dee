/** The immutable user record (a Lombok value class): an id, a name and a
    password, compared field by field. */
module Users {

  /** The range of a Java `Integer`, a 32-bit two's-complement integer (a null id is not modelled). */
  newtype Int32 = x: int | -0x8000_0000 <= x < 0x8000_0000

  /** A user. Datatype values are immutable and equal exactly when their
      fields are, which is what the value class generates. */
  datatype User = User(id: Int32, name: string, password: string)

  /** The static factory `of`: builds a user from any three values, without validation. */
  function Of(id: Int32, name: string, password: string): (u: User)
    ensures u.id == id && u.name == name && u.password == password
  {
    User(id, name, password)
  }

  /** Field-wise equality: two users are equal iff id, name and password all agree. */
  lemma UserEquality(a: User, b: User)
    ensures a == b <==> a.id == b.id && a.name == b.name && a.password == b.password
  {
  }

  /** Two users built by the factory are equal exactly when all three arguments are. */
  lemma OfEquality(id: Int32, name: string, password: string, id': Int32, name': string, password': string)
    ensures Of(id, name, password) == Of(id', name', password') <==>
            id == id' && name == name' && password == password'
  {
    UserEquality(Of(id, name, password), Of(id', name', password'));
  }
}
