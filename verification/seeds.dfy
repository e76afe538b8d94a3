/** Facts about the seed directory and the seed norms: they satisfy the
    store invariant, so the application starts in a valid state. */
module SeedFacts {
  import opened Types
  import Data
  import Workflow
  import Invariants
  import App

  /** Seed usernames are pairwise distinct, as are seed user ids. */
  lemma SeedUsersDistinct()
    ensures forall i, j :: 0 <= i < j < |Data.MockUsers| ==>
      Data.MockUsers[i].username != Data.MockUsers[j].username && Data.MockUsers[i].id != Data.MockUsers[j].id
  {
  }

  /** Seed norm ids are pairwise distinct. */
  lemma SeedIdsDistinct()
    ensures Invariants.IdsDistinct(Data.MockNorms)
  {
  }

  /** Exactly one seed norm is confidential: `norm-conf-001`. */
  lemma OnlyConfIsConfidential()
    ensures forall n :: n in Data.MockNorms ==> (n.isConfidential <==> n.id == "norm-conf-001")
  {
  }

  /** Version 2 of `reg-acad-001` cites `res-cu-050-2023`, a different seed
      norm whose title it snapshots, and was applied by `admin01`, the seed
      ADMIN. */
  lemma RegAcadCitation()
    ensures Data.RegAcad.versions[1].modification.Some?
    ensures var m := Data.RegAcad.versions[1].modification.value;
      && Workflow.FindNorm(Data.MockNorms, m.modifyingNormId) == Some(Data.ResCu)
      && Data.ResCu.id != Data.RegAcad.id
      && m.modifyingNormTitle == Data.ResCu.title
      && m.appliedBy == "admin01"
      && Data.MockUsers[0] == User("admin01", "admin", ADMIN)
  {
    assert Workflow.FindNorm(Data.MockNorms, "res-cu-050-2023") == Some(Data.ResCu);
  }

  /** Every seed norm is valid: histories numbered 1..n from an original
      first version, with sound modifications. */
  lemma SeedNormsValid()
    ensures forall n :: n in Data.MockNorms ==> Invariants.ValidNorm(n, Data.MockNorms, Data.MockUsers)
  {
    RegAcadCitation();
    assert Invariants.ModificationSound(Data.RegAcad.versions[1].modification.value, Data.MockNorms, Data.MockUsers) by {
      assert Data.MockUsers[0] in Data.MockUsers;
    }
    assert Invariants.ValidNorm(Data.RegAcad, Data.MockNorms, Data.MockUsers);
  }

  /** The application starts in a state that satisfies the invariant. */
  lemma InitialInv()
    ensures App.Inv(Data.MockNorms, App.Initial)
    ensures App.Initial.norms == Data.MockNorms
    ensures App.Initial.currentUser.None? && App.Initial.selected.None?
  {
    SeedNormsValid();
    SeedIdsDistinct();
  }
}
