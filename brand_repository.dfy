/** `brandRepository`: brands with a name, an optional website and an optional logo object. */
module BrandRepository {
  import opened Common
  import opened SoftDelete

  datatype Brand = Brand(name: string, website: Option<string>)

  /** The columns `createBrand` and `updateBrand` write: the name as given, `website || null`. */
  function Columns(name: string, website: Option<string>): (b: Brand)
    ensures b.name == name
    ensures b.website.Some? <==> Truthy(website)
    ensures b.website.Some? ==> b.website == website
  {
    Brand(name, OrNull(website))
  }

  method CreateBrand(t: Table<Brand>, name: string, logo: Option<string>, website: Option<string>, now: Time)
    returns (brand: Row<Brand>)
    requires t.Valid()
    modifies t
    ensures t.Valid()
    ensures var o := CreateStep(old(t.Snapshot()), Columns(name, website), logo, now);
      o.result == Success(brand) && t.Snapshot() == o.store
  {
    brand := t.Insert(Columns(name, website), logo, now);
  }

  method UpdateBrand(t: Table<Brand>, id: int, name: string, logo: Option<string>, website: Option<string>, now: Time)
    returns (r: Result<Row<Brand>, string>)
    requires t.Valid()
    modifies t, t.bucket
    ensures t.Valid()
    ensures var o := UpdateStep(old(t.Snapshot()), id, Columns(name, website), logo, now);
      r == o.result && t.Snapshot() == o.store
  {
    r := t.Update(id, Columns(name, website), logo, now);
  }

  method DeleteBrand(t: Table<Brand>, id: int, now: Time) returns (r: Result<bool, string>)
    requires t.Valid()
    modifies t, t.bucket
    ensures t.Valid()
    ensures var o := DeleteStep(old(t.Snapshot()), id, now);
      r == o.result && t.Snapshot() == o.store
  {
    r := t.Delete(id, now);
  }
}
