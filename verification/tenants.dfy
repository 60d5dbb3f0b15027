/** The `tenants` table as the chat path and the document endpoints read
    it, and the lookup both use: `select * ... eq('id', id)`, first row. */
module Tenants {
  import opened Results

  /** The columns of a `tenants` row the modelled code reads. */
  datatype TenantRow = TenantRow(id: string, name: string, ownerId: string)

  const TenantNotFound: string := "Tenant not found"

  /** The first tenant row with the given id, or none when no row has it. */
  function FindTenant(tenants: seq<TenantRow>, id: string): (r: Option<TenantRow>)
    ensures r.None? <==> forall t :: t in tenants ==> t.id != id
    ensures r.Some? ==> exists i :: 0 <= i < |tenants| && tenants[i] == r.value && r.value.id == id
                                    && forall j :: 0 <= j < i ==> tenants[j].id != id
  {
    if |tenants| == 0 then None
    else if tenants[0].id == id then Some(tenants[0])
    else
      var r := FindTenant(tenants[1..], id);
      assert r.Some? ==> exists i :: 0 <= i < |tenants| && tenants[i] == r.value && r.value.id == id
                                     && forall j :: 0 <= j < i ==> tenants[j].id != id by {
        if r.Some? {
          var i :| 0 <= i < |tenants[1..]| && tenants[1..][i] == r.value && r.value.id == id
                   && forall j :: 0 <= j < i ==> tenants[1..][j].id != id;
          assert tenants[i + 1] == r.value;
          assert forall j :: 0 <= j < i + 1 ==> tenants[j].id != id by {
            forall j | 0 <= j < i + 1 ensures tenants[j].id != id {
              if j > 0 { assert tenants[j] == tenants[1..][j - 1]; }
            }
          }
        }
      }
      r
  }
}
