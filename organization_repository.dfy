/** `organizationRepository`: organizations with a name, optional website,
    address and vendor, admin and banking references, and an optional logo
    object. No reference is checked against another table. */
module OrganizationRepository {
  import opened Common
  import opened SoftDelete

  datatype Organization = Organization(name: string, website: Option<string>, address: Option<string>,
                                       vendorId: Option<Scalar>, adminId: Option<Scalar>, bankingId: Option<Scalar>)

  /** The columns `createOrganization` and `updateOrganization` write: the
      name as given, every other column `x || null`. */
  function Columns(name: string, website: Option<string>, address: Option<string>,
                   vendorId: Option<Scalar>, adminId: Option<Scalar>, bankingId: Option<Scalar>): (o: Organization)
    ensures o.name == name
    ensures o.website.Some? <==> Truthy(website)
    ensures o.address.Some? <==> Truthy(address)
    ensures o.vendorId.Some? <==> TruthyScalar(vendorId)
    ensures o.adminId.Some? <==> TruthyScalar(adminId)
    ensures o.bankingId.Some? <==> TruthyScalar(bankingId)
    ensures o.website.Some? ==> o.website == website
    ensures o.address.Some? ==> o.address == address
    ensures o.vendorId.Some? ==> o.vendorId == vendorId
    ensures o.adminId.Some? ==> o.adminId == adminId
    ensures o.bankingId.Some? ==> o.bankingId == bankingId
  {
    Organization(name, OrNull(website), OrNull(address), ScalarOrNull(vendorId), ScalarOrNull(adminId), ScalarOrNull(bankingId))
  }

  /** The text "0" a multipart body carries is kept; the number 0 becomes null. */
  lemma ColumnsKeepTextZero(name: string, website: Option<string>, address: Option<string>, id: Option<Scalar>)
    ensures Columns(name, website, address, Some(Text("0")), id, id).vendorId == Some(Text("0"))
    ensures Columns(name, website, address, Some(Number(0.0)), id, id).vendorId.None?
  {
  }

  method CreateOrganization(t: Table<Organization>, name: string, logo: Option<string>, website: Option<string>,
                            address: Option<string>, vendorId: Option<Scalar>, adminId: Option<Scalar>,
                            bankingId: Option<Scalar>, now: Time)
    returns (organization: Row<Organization>)
    requires t.Valid()
    modifies t
    ensures t.Valid()
    ensures var o := CreateStep(old(t.Snapshot()), Columns(name, website, address, vendorId, adminId, bankingId), logo, now);
      o.result == Success(organization) && t.Snapshot() == o.store
  {
    organization := t.Insert(Columns(name, website, address, vendorId, adminId, bankingId), logo, now);
  }

  method UpdateOrganization(t: Table<Organization>, id: int, name: string, logo: Option<string>,
                            website: Option<string>, address: Option<string>, vendorId: Option<Scalar>,
                            adminId: Option<Scalar>, bankingId: Option<Scalar>, now: Time)
    returns (r: Result<Row<Organization>, string>)
    requires t.Valid()
    modifies t, t.bucket
    ensures t.Valid()
    ensures var o := UpdateStep(old(t.Snapshot()), id, Columns(name, website, address, vendorId, adminId, bankingId), logo, now);
      r == o.result && t.Snapshot() == o.store
  {
    r := t.Update(id, Columns(name, website, address, vendorId, adminId, bankingId), logo, now);
  }

  method DeleteOrganization(t: Table<Organization>, id: int, now: Time) returns (r: Result<bool, string>)
    requires t.Valid()
    modifies t, t.bucket
    ensures t.Valid()
    ensures var o := DeleteStep(old(t.Snapshot()), id, now);
      r == o.result && t.Snapshot() == o.store
  {
    r := t.Delete(id, now);
  }
}
