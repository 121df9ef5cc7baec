/** The parts of the Terraform plan representation (hashicorp/terraform-json) that the
    converter reads: action lists, JSON values, changes, resource changes and the plan. */
module Tfjson {

  datatype Action = NoOp | Create | Read | Update | Delete

  /** The helper predicates of terraform-json's `Actions`: a single-element list for
      no-op, create, read, update and delete; a two-element list for replace. */
  predicate IsNoOp(a: seq<Action>) { a == [NoOp] }
  predicate IsCreate(a: seq<Action>) { a == [Create] }
  predicate IsRead(a: seq<Action>) { a == [Read] }
  predicate IsUpdate(a: seq<Action>) { a == [Update] }
  predicate IsDelete(a: seq<Action>) { a == [Delete] }
  predicate IsReplace(a: seq<Action>) { a == [Delete, Create] || a == [Create, Delete] }

  /** A decoded JSON value (Go's `interface{}` after `encoding/json`). */
  datatype Json =
    | Null
    | Bool(b: bool)
    | Num(n: real)
    | Str(s: string)
    | Arr(items: seq<Json>)
    | Obj(fields: map<string, Json>)

  datatype Change = Change(
    actions: seq<Action>,
    before: Json,
    after: Json,
    afterUnknown: Json,
    beforeSensitive: Json,
    afterSensitive: Json)

  datatype ResourceChange = ResourceChange(
    address: string,
    moduleAddress: string,
    previousAddress: string,
    resourceType: string,
    name: string,
    change: Change)

  datatype Plan = Plan(resourceChanges: seq<ResourceChange>)
}
