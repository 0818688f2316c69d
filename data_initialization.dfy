/**
 * Start-up seeding of the roles table (Services/Implementations/DataInitializationService.cs):
 * when, and only when, the table is empty, the three roles are added with fixed keys.
 */
module Seeding {
  import opened Wrappers
  import opened Entities
  import opened Store

  const StudentDescription: string := "Студент - может просматривать курсы и выполнять задания"
  const TeacherDescription: string := "Преподаватель - может создавать курсы, уроки и задания"
  const AdminDescription: string := "Администратор - полный доступ к системе"

  /** The three roles `InitializeRolesAsync` adds, keyed by their ids. */
  function DefaultRoles(): map<int, Role> {
    map[1 := Role(1, StudentRole, Some(StudentDescription)),
        2 := Role(2, TeacherRole, Some(TeacherDescription)),
        3 := Role(3, AdminRole, Some(AdminDescription))]
  }

  /** The roles table after seeding: untouched unless it was empty. */
  function SeededRoles(roles: map<int, Role>): (r: map<int, Role>)
    ensures roles != map[] ==> r == roles
    ensures roles == map[] ==>
      && r.Keys == {1, 2, 3}
      && r[1].name == StudentRole && r[2].name == TeacherRole && r[3].name == AdminRole
      && r[1].description == Some(StudentDescription)
      && r[2].description == Some(TeacherDescription)
      && r[3].description == Some(AdminDescription)
      && (forall k | k in r :: r[k].id == k)
    ensures r != map[]
  {
    if roles == map[] then
      var d := DefaultRoles();
      assert 1 in d;
      d
    else roles
  }

  /** Seeding twice is seeding once. */
  lemma SeedingIdempotent(roles: map<int, Role>)
    ensures SeededRoles(SeededRoles(roles)) == SeededRoles(roles)
  {
  }

  /** The seeded roles have distinct names, so the unique index on the name holds. */
  lemma DefaultRolesUnique()
    ensures UniqueRoleNames(DefaultRoles())
  {
    RoleNamesDistinct();
  }

  class DataInitializationService {
    const context: SchoolDb

    constructor (context: SchoolDb)
      ensures this.context == context
    {
      this.context := context;
    }

    /** `InitializeAsync`. */
    method Initialize()
      requires context.Valid()
      modifies context`roles
      ensures context.Valid()
      ensures context.roles == SeededRoles(old(context.roles))
    {
      InitializeRoles();
    }

    /** `InitializeRolesAsync`: adds the three roles when the table is empty. */
    method InitializeRoles()
      requires context.Valid()
      modifies context`roles
      ensures context.Valid()
      ensures context.roles == SeededRoles(old(context.roles))
    {
      if context.roles == map[] {
        DefaultRolesUnique();
        context.roles := DefaultRoles();
      }
    }
  }
}
