/**
 * Small value types of the worker runtime (src/worker/core/mod.rs): entity
 * identifiers and the authority state a worker holds over a component.
 */
module WorkerCore {
  import opened Wrappers
  import opened Scalars

  /** An entity identifier wraps a signed 64-bit integer. */
  datatype EntityId = EntityId(id: i64)

  /** EntityId::new: wraps the number unchanged. */
  function NewEntityId(id: i64): (r: EntityId)
    ensures r.id == id
  {
    EntityId(id)
  }

  /** EntityId::is_valid: only strictly positive identifiers are valid. */
  predicate IsValid(e: EntityId): (r: bool)
    ensures r <==> e.id >= 1
    ensures r ==> e != NewEntityId(0)
  {
    e.id > 0
  }

  /** Zero and every negative identifier are invalid; every positive one is valid. */
  lemma IsValidExactlyPositive(x: i64)
    ensures IsValid(NewEntityId(x)) <==> x >= 1
    ensures x <= 0 ==> !IsValid(NewEntityId(x))
  {
  }

  const EntityIdPrefix: string := "EntityId: "

  /** EntityId::to_string: the text "EntityId: " followed by the decimal id. */
  function ToString(e: EntityId): (r: string)
    ensures |r| > |EntityIdPrefix|
    ensures r[..|EntityIdPrefix|] == EntityIdPrefix
    ensures ParseDecimal(r[|EntityIdPrefix|..]) == Some(e.id as int)
  {
    var digits := DecimalString(e.id as int);
    DecimalRoundTrip(e.id as int);
    var r := EntityIdPrefix + digits;
    assert r[|EntityIdPrefix|..] == digits;
    r
  }

  /** Two identifiers print the same only when they are the same identifier. */
  lemma ToStringInjective(a: EntityId, b: EntityId)
    requires ToString(a) == ToString(b)
    ensures a == b
  {
    assert ParseDecimal(ToString(a)[|EntityIdPrefix|..]) == Some(a.id as int);
    assert ParseDecimal(ToString(b)[|EntityIdPrefix|..]) == Some(b.id as int);
  }

  /** The authority a worker has over a component of an entity. */
  datatype Authority = Authoritative | AuthorityLossImminent | NotAuthoritative

  /** Authority::has_authority: everything except NotAuthoritative. */
  predicate HasAuthority(a: Authority): (r: bool)
    ensures r <==> AuthorityCode(a) != 0
  {
    a != NotAuthoritative
  }

  /** Authority loss imminent still counts as holding authority. */
  lemma HasAuthorityCases(a: Authority)
    ensures HasAuthority(a) <==> a.Authoritative? || a.AuthorityLossImminent?
  {
  }

  /**
   * From<u8> for Authority: 0, 1 and 2 are the three states; any other byte
   * aborts with "Unknown authority state: <n>".
   */
  function AuthorityFrom(b: u8): (r: Outcome<Authority>)
    ensures r.Returns? <==> b <= 2
    ensures b == 0 ==> r == Returns(NotAuthoritative)
    ensures b == 1 ==> r == Returns(Authoritative)
    ensures b == 2 ==> r == Returns(AuthorityLossImminent)
    ensures r.Panics? ==> r.message == "Unknown authority state: " + DecimalString(b as int)
  {
    match b
    case 0 => Returns(NotAuthoritative)
    case 1 => Returns(Authoritative)
    case 2 => Returns(AuthorityLossImminent)
    case _ => Panics("Unknown authority state: " + DecimalString(b as int))
  }

  /** The wire number of each state, the inverse of AuthorityFrom on 0..2. */
  function AuthorityCode(a: Authority): (r: u8)
    ensures r <= 2
  {
    match a
    case NotAuthoritative => 0
    case Authoritative => 1
    case AuthorityLossImminent => 2
  }

  /** Every state is decoded from its code: the decoding is onto. */
  lemma AuthorityFromCode(a: Authority)
    ensures AuthorityFrom(AuthorityCode(a)) == Returns(a)
  {
  }

  /** Distinct accepted bytes decode to distinct states: the decoding is one-to-one. */
  lemma AuthorityFromInjective(x: u8, y: u8)
    requires AuthorityFrom(x).Returns? && AuthorityFrom(y).Returns?
    requires AuthorityFrom(x) == AuthorityFrom(y)
    ensures x == y
  {
  }

  /** Encoding an accepted byte's state gives the byte back. */
  lemma AuthorityCodeFrom(b: u8)
    requires b <= 2
    ensures AuthorityCode(AuthorityFrom(b).value) == b
  {
  }
}
