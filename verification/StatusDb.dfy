/** The installed-package database. */
module StatusDb {

  datatype InstalledPackage = InstalledPackage(
    name: string,
    version: string,
    architecture: string,
    status: string,
    installRoot: string,
    repoUri: string,
    repoDist: string,
    repoComponent: string,
    installPrefix: string,
    depends: seq<string>,
    autoInstalled: bool,
    termuxPackage: bool)

  type InstalledDb = map<string, InstalledPackage>
}
