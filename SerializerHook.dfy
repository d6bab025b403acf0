/**
 * WebDataSerializerHook: the class id each IdentifiedDataSerializable of the
 * module reports, and the factory that makes an empty instance from an id.
 */
module SerializerHook {
  import opened Wrappers

  /** The six serializable classes of the module. */
  datatype Kind =
    | SessionUpdate        // SessionUpdateEntryProcessor
    | SessionDelete        // DeleteSessionEntryProcessor
    | GetAttribute         // GetAttributeEntryProcessor
    | GetAttributeNames    // GetAttributeNamesEntryProcessor
    | GetSessionState      // GetSessionStateEntryProcessor
    | SessionStateKind     // SessionState

  const SESSION_UPDATE: int := 1
  const SESSION_DELETE: int := 2
  const GET_ATTRIBUTE: int := 3
  const GET_ATTRIBUTE_NAMES: int := 4
  const GET_SESSION_STATE: int := 5
  const SESSION_STATE: int := 6

  /** The id a class's getClassId returns. */
  function ClassId(k: Kind): int {
    match k
    case SessionUpdate => SESSION_UPDATE
    case SessionDelete => SESSION_DELETE
    case GetAttribute => GET_ATTRIBUTE
    case GetAttributeNames => GET_ATTRIBUTE_NAMES
    case GetSessionState => GET_SESSION_STATE
    case SessionStateKind => SESSION_STATE
  }

  /** The factory's create(typeId): the class with that id, null for any other id. */
  function Create(typeId: int): (r: Option<Kind>)
    ensures r.Some? <==> 1 <= typeId <= 6
  {
    if typeId == SESSION_UPDATE then Some(SessionUpdate)
    else if typeId == SESSION_DELETE then Some(SessionDelete)
    else if typeId == GET_ATTRIBUTE then Some(GetAttribute)
    else if typeId == GET_ATTRIBUTE_NAMES then Some(GetAttributeNames)
    else if typeId == GET_SESSION_STATE then Some(GetSessionState)
    else if typeId == SESSION_STATE then Some(SessionStateKind)
    else None
  }

  /** The factory makes back the class whose id was written: create and getClassId are inverse. */
  lemma CreateInvertsClassId(k: Kind)
    ensures Create(ClassId(k)) == Some(k)
  {
  }

  /** Every id the factory accepts is the id of what it creates. */
  lemma ClassIdInvertsCreate(typeId: int)
    requires Create(typeId).Some?
    ensures ClassId(Create(typeId).value) == typeId
  {
  }

  /** No two classes share an id. */
  lemma ClassIdsDistinct(k1: Kind, k2: Kind)
    ensures ClassId(k1) == ClassId(k2) ==> k1 == k2
  {
    CreateInvertsClassId(k1);
    CreateInvertsClassId(k2);
  }
}
