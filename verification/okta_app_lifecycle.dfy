/** Renaming and deleting an Okta app (`update_app_name`,
    `maybe_delete_app`). Each plans at most one record and, when executing,
    issues at most one call, whose failure raises. */
module OktaApps {
  import opened Wrappers
  import opened JsonValue
  import opened Changes
  import opened OktaModel

  function RenameRecord(app: App, newName: string): ProposedChange
  {
    ProposedChange(ChangeType.Update, Some(app.resourceId), Some(app.resourceType), "app_name",
                   None, Some(Str(newName)), None)
  }

  /** `update_app_name`. */
  function Rename(app: App, newName: string, org: Org, execute: bool): (o: Outcome<OktaOp>)
    ensures app.name == newName ==> o == Returned(Plan([], []))
    ensures app.name != newName && o.Returned? ==>
              && |o.plan.changes| == 1
              && o.plan.changes[0].changeType == ChangeType.Update
              && o.plan.changes[0].attribute == "app_name"
              && o.plan.changes[0].newValue == Some(Str(newName))
              && o.plan.changes[0].resourceId == Some(app.resourceId)
              && o.plan.changes[0].resourceType == Some(app.resourceType)
    ensures o.Returned? ==>
              o.plan.trace == if execute && app.name != newName
                              then [multiset{UpdateApplication(app.id, newName)}] else []
    ensures o.Raised? <==> execute && app.name != newName && !org.accepts(UpdateApplication(app.id, newName))
    ensures o.Raised? ==> o.trace == [multiset{UpdateApplication(app.id, newName)}]
  {
    if app.name == newName then Returned(Plan([], []))
    else if !execute then Returned(Plan([RenameRecord(app, newName)], []))
    else
      var op := UpdateApplication(app.id, newName);
      if org.accepts(op) then Returned(Plan([RenameRecord(app, newName)], [multiset{op}]))
      else Raised("Error updating Okta app", [multiset{op}])
  }

  function DeleteRecord(app: App): ProposedChange
  {
    ProposedChange(Delete, Some(app.id), Some(app.resourceType), "app", None, None,
                   Some(Obj(map["app" := Str(app.name)])))
  }

  /** `maybe_delete_app`. */
  function MaybeDelete(delete: bool, app: App, org: Org, execute: bool): (o: Outcome<OktaOp>)
    ensures !delete ==> o == Returned(Plan([], []))
    ensures delete && o.Returned? ==>
              && |o.plan.changes| == 1
              && o.plan.changes[0].changeType == Delete
              && o.plan.changes[0].attribute == "app"
              && o.plan.changes[0].resourceId == Some(app.id)
              && o.plan.changes[0].resourceType == Some(app.resourceType)
              && o.plan.changes[0].changeSummary == Some(Obj(map["app" := Str(app.name)]))
    ensures o.Returned? ==>
              o.plan.trace == if execute && delete then [multiset{DeleteApplication(app.id)}] else []
    ensures o.Raised? <==> execute && delete && !org.accepts(DeleteApplication(app.id))
    ensures o.Raised? ==> o.trace == [multiset{DeleteApplication(app.id)}]
  {
    if !delete then Returned(Plan([], []))
    else if !execute then Returned(Plan([DeleteRecord(app)], []))
    else
      var op := DeleteApplication(app.id);
      if org.accepts(op) then Returned(Plan([DeleteRecord(app)], [multiset{op}]))
      else Raised("Error deleting app", [multiset{op}])
  }

  /** Planning a rename reports the same record as performing it. */
  lemma RenamePlanModeMatchesExecute(app: App, newName: string, org: Org)
    requires Rename(app, newName, org, true).Returned?
    ensures Rename(app, newName, org, false).plan.changes == Rename(app, newName, org, true).plan.changes
  {
  }

  /** Once renamed, renaming to the same name again plans and calls nothing. */
  lemma RenameConverges(app: App, newName: string, org: Org, execute: bool)
    ensures Rename(app.(name := newName), newName, org, execute) == Returned(Plan([], []))
  {
  }

  /** Planning a deletion reports the same record as performing it. */
  lemma DeletePlanModeMatchesExecute(app: App, org: Org)
    requires MaybeDelete(true, app, org, true).Returned?
    ensures MaybeDelete(true, app, org, false).plan.changes == MaybeDelete(true, app, org, true).plan.changes
  {
  }
}
